/**
 The printer and the parser of the baseline file undo each other, for every
 threshold and every table, exactly when the scenario names are clean.
 */
module RoundTrip {
  import opened Types
  import opened Text
  import opened BaselineFile

  /** A name that a `[name]` line can carry. */
  predicate Clean(name: string) {
    '#' !in name && '\n' !in name && IsTrimmed(name)
  }

  predicate PlainKey(key: string) {
    key != "" && IsTrimmed(key) && '=' !in key && '#' !in key && key[0] != '['
  }

  // ---- What the printed lines say ----

  lemma HeaderLine(name: string)
    requires Clean(name)
    ensures Classify("[" + name + "]") == Header(name)
  {
    var raw := "[" + name + "]";
    IndexOfAbsent(raw, '#');
    assert raw[..|raw|] == raw;
    TrimFacts(raw);
    assert raw[1..|raw| - 1] == name;
    TrimFacts(name);
  }

  lemma UncommentedLine(raw: string)
    requires IsTrimmed(raw) && '#' !in raw
    ensures Trim(Before(raw, '#')) == raw
  {
    IndexOfAbsent(raw, '#');
    assert raw[..|raw|] == raw;
    TrimFacts(raw);
  }

  lemma AssignmentSplits(key: string, d: string)
    requires '=' !in key
    ensures SplitOnce(key + " = " + d, '=') == Some((key + " ", " " + d))
  {
    var raw := key + " = " + d;
    assert raw == (key + " ") + ['='] + (" " + d);
    IndexOfUnique(key + " ", '=', " " + d);
    assert raw[..|key| + 1] == key + " " && raw[|key| + 2..] == " " + d;
  }

  /** An assignment line is read as its key and its value without underscores. */
  lemma AssignmentLine(key: string, value: string)
    requires PlainKey(key) && value != "" && IsTrimmed(value) && '#' !in value
    ensures Classify(key + " = " + value)
         == match ParseU64(Remove(value, '_'))
            case None => BadNumber(value)
            case Some(n) => Setting(key, n)
  {
    var raw := key + " = " + value;
    assert raw[0] == key[0] && raw[|raw| - 1] == value[|value| - 1];
    UncommentedLine(raw);
    AssignmentSplits(key, value);
    TrimOneSpace(key);
    TrimOneSpace(value);
  }

  lemma SettingLine(key: string, n: u64)
    requires PlainKey(key)
    ensures Classify(key + " = " + Decimal(n)) == Setting(key, n)
  {
    var d := Decimal(n);
    DecimalFacts(n);
    DigitsArePlain(d);
    AssignmentLine(key, d);
    RemoveAbsent(d, '_');
    ParseDecimal(n);
  }

  /** Underscores do not change what a line says, wherever and however many they
      are: two values that agree without them are read as the same number. */
  lemma UnderscoresDoNotMatter(key: string, v: string, w: string)
    requires PlainKey(key)
    requires v != "" && IsTrimmed(v) && '#' !in v
    requires w != "" && IsTrimmed(w) && '#' !in w
    requires Remove(v, '_') == Remove(w, '_') && ParseU64(Remove(v, '_')).Some?
    ensures Classify(key + " = " + v) == Classify(key + " = " + w)
         == Setting(key, ParseU64(Remove(v, '_')).value)
  {
    AssignmentLine(key, v);
    AssignmentLine(key, w);
  }

  lemma DigitsArePlain(d: string)
    requires AllDigits(d) && d != ""
    ensures IsTrimmed(d) && '#' !in d && '_' !in d && '\n' !in d && d[|d| - 1] != '\r'
  {
  }

  lemma KeysArePlain()
    ensures PlainKey(THRESHOLD) && PlainKey(CPU) && PlainKey(MEM)
    ensures '\n' !in THRESHOLD && '\n' !in CPU && '\n' !in MEM
    ensures CPU != MEM
  {
    KeysDiffer();
  }

  lemma CommentLine(l: string)
    requires l == "" || l[0] == '#'
    ensures Classify(l) == Blank
  {
    assert Before(l, '#') == "";
  }

  // ---- What the printed file means ----

  function BlockLines(name: string, c: Cost): seq<Line> {
    [Blank, Header(name), Setting(CPU, c.cpuInsns), Setting(MEM, c.memBytes)]
  }

  /** Appending a scenario's block adds that scenario, with its two metrics, and
      disturbs nothing else. */
  lemma AppendBlock(ls: seq<Line>, name: string, c: Cost)
    requires FirstError(ls).None?
    ensures var ls' := ls + BlockLines(name, c);
            && FirstError(ls').None?
            && Names(ls') == Names(ls) + {name}
            && LastSetting(ls', Some(name), CPU) == Some(c.cpuInsns)
            && LastSetting(ls', Some(name), MEM) == Some(c.memBytes)
            && forall s, k :: s != Some(name) ==> LastSetting(ls', s, k) == LastSetting(ls, s, k)
  {
    var b := BlockLines(name, c);
    var l1 := ls + [b[0]];
    var l2 := l1 + [b[1]];
    var l3 := l2 + [b[2]];
    KeysDiffer();
    Snoc(ls, b[0]);
    Snoc(l1, b[1]);
    Snoc(l2, b[2]);
    Snoc(l3, b[3]);
    assert ls + b == l3 + [b[3]];
  }

  /** The table read back after the blocks of `names`. */
  ghost predicate Holds(ls: seq<Line>, t: u64, measured: map<string, Cost>, names: set<string>)
    requires names <= measured.Keys
  {
    && FirstError(ls).None?
    && LastSetting(ls, None, THRESHOLD) == Some(t)
    && Names(ls) == names
    && forall n :: n in names ==>
         && LastSetting(ls, Some(n), CPU) == Some(measured[n].cpuInsns)
         && LastSetting(ls, Some(n), MEM) == Some(measured[n].memBytes)
  }

  function SetOf(names: seq<string>): set<string> {
    if names == [] then {} else SetOf(names[..|names| - 1]) + {names[|names| - 1]}
  }

  lemma {:induction false} SetOfHas(names: seq<string>)
    ensures forall n :: n in SetOf(names) <==> n in names
  {
    if names != [] {
      SetOfHas(names[..|names| - 1]);
    }
  }

  lemma ClassifyConcat(a: seq<string>, b: seq<string>)
    ensures ClassifyAll(a + b) == ClassifyAll(a) + ClassifyAll(b)
  {
  }

  lemma ClassifyFour(a: string, b: string, c: string, d: string)
    ensures ClassifyAll([a, b, c, d]) == [Classify(a), Classify(b), Classify(c), Classify(d)]
  {
  }

  lemma BlockIsRead(name: string, c: Cost)
    requires Clean(name)
    ensures ClassifyAll(Block(name, c)) == BlockLines(name, c)
  {
    KeysArePlain();
    CommentLine("");
    HeaderLine(name);
    SettingLine(CPU, c.cpuInsns);
    SettingLine(MEM, c.memBytes);
    ClassifyFour("", "[" + name + "]", CPU + " = " + Decimal(c.cpuInsns), MEM + " = " + Decimal(c.memBytes));
  }

  lemma PreambleHolds(header: seq<string>, t: u64, measured: map<string, Cost>)
    requires Commentary(header)
    ensures Holds(ClassifyAll(Preamble(header, t)), t, measured, {})
  {
    var ls, setting := ClassifyAll(header), THRESHOLD + " = " + Decimal(t);
    forall i | 0 <= i < |ls| ensures ls[i] == Blank {
      assert header[i] in header;
      CommentLine(header[i]);
    }
    BlanksMeanNothing(ls);
    KeysArePlain();
    SettingLine(THRESHOLD, t);
    ClassifyConcat(header, [setting]);
    assert ClassifyAll([setting]) == [Setting(THRESHOLD, t)];
    Snoc(ls, Setting(THRESHOLD, t));
  }

  lemma {:induction false} BlanksMeanNothing(ls: seq<Line>)
    requires forall i :: 0 <= i < |ls| ==> ls[i] == Blank
    ensures FirstError(ls).None? && Section(ls).None? && Names(ls) == {}
  {
    if ls != [] {
      BlanksMeanNothing(Init(ls));
    }
  }

  lemma BlockHolds(ls: seq<Line>, t: u64, measured: map<string, Cost>, names: set<string>, name: string)
    requires names <= measured.Keys && name in measured
    requires Holds(ls, t, measured, names)
    ensures Holds(ls + BlockLines(name, measured[name]), t, measured, names + {name})
  {
    AppendBlock(ls, name, measured[name]);
  }

  lemma AppendedBlock(head: seq<string>, measured: map<string, Cost>, names: seq<string>)
    requires names != [] && forall i :: 0 <= i < |names| ==> names[i] in measured
    requires Clean(names[|names| - 1])
    ensures ClassifyAll(head + Blocks(measured, names))
         == ClassifyAll(head + Blocks(measured, names[..|names| - 1]))
            + BlockLines(names[|names| - 1], measured[names[|names| - 1]])
  {
    var name := names[|names| - 1];
    var before, block := head + Blocks(measured, names[..|names| - 1]), Block(name, measured[name]);
    assert head + Blocks(measured, names) == before + block;
    ClassifyConcat(before, block);
    BlockIsRead(name, measured[name]);
  }

  lemma {:induction false} BlocksHold(head: seq<string>, t: u64, measured: map<string, Cost>, names: seq<string>)
    requires Holds(ClassifyAll(head), t, measured, {})
    requires forall i :: 0 <= i < |names| ==> names[i] in measured && Clean(names[i])
    ensures SetOf(names) <= measured.Keys
    ensures Holds(ClassifyAll(head + Blocks(measured, names)), t, measured, SetOf(names))
  {
    if names == [] {
      assert head + Blocks(measured, []) == head;
    } else {
      var init := names[..|names| - 1];
      BlocksHold(head, t, measured, init);
      AppendedBlock(head, measured, names);
      BlockHolds(ClassifyAll(head + Blocks(measured, init)), t, measured, SetOf(init), names[|names| - 1]);
    }
  }

  // ---- The printed text splits back into the printed lines ----

  lemma PreambleUnbroken(header: seq<string>, t: u64)
    requires Commentary(header)
    ensures forall l :: l in Preamble(header, t) ==> Unbroken(l)
  {
    DecimalFacts(t);
    DigitsArePlain(Decimal(t));
    KeysArePlain();
  }

  lemma BlockUnbroken(name: string, c: Cost)
    requires '\n' !in name
    ensures forall l :: l in Block(name, c) ==> Unbroken(l)
  {
    KeysArePlain();
    DecimalFacts(c.cpuInsns);
    DigitsArePlain(Decimal(c.cpuInsns));
    DecimalFacts(c.memBytes);
    DigitsArePlain(Decimal(c.memBytes));
  }

  lemma {:induction false} BlocksUnbroken(measured: map<string, Cost>, names: seq<string>)
    requires forall i :: 0 <= i < |names| ==> names[i] in measured && '\n' !in names[i]
    ensures forall l :: l in Blocks(measured, names) ==> Unbroken(l)
  {
    if names != [] {
      BlocksUnbroken(measured, names[..|names| - 1]);
      BlockUnbroken(names[|names| - 1], measured[names[|names| - 1]]);
    }
  }

  lemma UnbrokenLines(ls: seq<string>)
    requires forall l :: l in ls ==> Unbroken(l)
    ensures Lines(Unlines(ls)) == ls
  {
    LinesOfUnlines(ls);
    forall i | 0 <= i < |ls| ensures ls[i] == "" || ls[i][|ls[i]| - 1] != '\r' {
      assert ls[i] in ls;
    }
    StripsNothingIff(ls);
  }

  lemma LinesOfRendered(header: seq<string>, t: u64, measured: map<string, Cost>)
    requires Commentary(header) && forall n :: n in measured ==> Clean(n)
    ensures Lines(Unlines(Rendered(header, t, measured))) == Rendered(header, t, measured)
  {
    PreambleUnbroken(header, t);
    BlocksUnbroken(measured, KeyOrder(measured.Keys));
    UnbrokenLines(Rendered(header, t, measured));
  }

  // ---- Names that come out of the parser ----

  lemma HeaderNameIsClean(raw: string)
    requires '\n' !in raw && Classify(raw).Header?
    ensures Clean(Classify(raw).name)
  {
    var line := Trim(Before(raw, '#'));
    var inner := line[1..|line| - 1];
    TrimFacts(Before(raw, '#'));
    TrimFacts(inner);
    assert forall c :: c in inner ==> c in line;
    assert forall c :: c in Before(raw, '#') ==> c in raw && c != '#';
  }

  /** Whatever the file, the parser only ever yields clean names. */
  lemma ParsedNamesAreClean(src: string)
    ensures forall n :: n in Names(ReadLines(src)) ==> Clean(n)
  {
    LinesHaveNoNewline(src);
    NamesAreHeaders(ReadLines(src));
    forall n | n in Names(ReadLines(src)) ensures Clean(n) {
      var i :| 0 <= i < |ReadLines(src)| && ReadLines(src)[i] == Header(n);
      assert Lines(src)[i] in Lines(src);
      HeaderNameIsClean(Lines(src)[i]);
    }
  }

  lemma HeldTableIsParsed(ls: seq<Line>, t: u64, measured: map<string, Cost>)
    requires Holds(ls, t, measured, measured.Keys)
    ensures Parsed(ls) == Ok(Baseline(t, measured))
  {
    NoneIncompleteIff(ls, KeyOrder(Names(ls)));
    assert Meaning(ls).entries == measured;
  }

  lemma CleanNamesComeBack(header: seq<string>, t: u64, measured: map<string, Cost>)
    requires Commentary(header) && forall n :: n in measured ==> Clean(n)
    ensures Parsed(ClassifyAll(Rendered(header, t, measured))) == Ok(Baseline(t, measured))
  {
    var names := KeyOrder(measured.Keys);
    PreambleHolds(header, t, measured);
    BlocksHold(Preamble(header, t), t, measured, names);
    SetOfHas(names);
    assert SetOf(names) == measured.Keys;
    HeldTableIsParsed(ClassifyAll(Rendered(header, t, measured)), t, measured);
  }

  /** Parsing what was printed, under whatever comment, gives back exactly the
      threshold and the table, if and only if every scenario name is clean. */
  lemma ParseOfRender(header: seq<string>, t: u64, measured: map<string, Cost>)
    requires Commentary(header)
    ensures Parsed(ReadLines(Unlines(Rendered(header, t, measured)))) == Ok(Baseline(t, measured))
            <==> forall n :: n in measured ==> Clean(n)
  {
    var src := Unlines(Rendered(header, t, measured));
    if forall n :: n in measured ==> Clean(n) {
      LinesOfRendered(header, t, measured);
      CleanNamesComeBack(header, t, measured);
    } else {
      var ls := ReadLines(src);
      ParsedNamesAreClean(src);
      AcceptedIff(ls);
      assert Parsed(ls).Ok? ==> Parsed(ls).value.entries.Keys == Names(ls);
    }
  }
}
