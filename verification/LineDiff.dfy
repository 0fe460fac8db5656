/**
 The line differ of the test helpers: what it prints rebuilds both inputs.
 */
module LineDiff {
  import opened Types
  import opened Text

  /** What the differ prints for position `i` of the two line lists. */
  function DiffAt(exp: seq<string>, act: seq<string>, i: nat): seq<string> {
    if i < |exp| && i < |act| && exp[i] == act[i] then ["  " + exp[i]]
    else
      (if i < |exp| then ["- " + exp[i]] else [])
      + (if i < |act| then ["+ " + act[i]] else [])
  }

  function DiffLines(exp: seq<string>, act: seq<string>, n: nat): seq<string> {
    if n == 0 then [] else DiffLines(exp, act, n - 1) + DiffAt(exp, act, n - 1)
  }

  function Max(a: nat, b: nat): nat {
    if a >= b then a else b
  }

  function Diff(expected: string, actual: string): Option<string> {
    if expected == actual then None
    else Some(Unlines(DiffLines(Lines(expected), Lines(actual), Max(|Lines(expected)|, |Lines(actual)|))))
  }

  /** A line with its mark, as it is pushed. */
  function Marked(mark: string, line: string): string {
    mark + line + "\n"
  }

  lemma MarkedLine(mark: string, line: string)
    ensures Unlines([mark + line]) == Marked(mark, line)
  {
    assert [mark + line][1..] == [];
  }

  lemma SameAt(exp: seq<string>, act: seq<string>, i: nat)
    requires i < |exp| && i < |act| && exp[i] == act[i]
    ensures Unlines(DiffAt(exp, act, i)) == Marked("  ", exp[i])
  {
    MarkedLine("  ", exp[i]);
  }

  lemma DifferentAt(exp: seq<string>, act: seq<string>, i: nat)
    requires !(i < |exp| && i < |act| && exp[i] == act[i])
    ensures Unlines(DiffAt(exp, act, i))
         == (if i < |exp| then Marked("- ", exp[i]) else "") + (if i < |act| then Marked("+ ", act[i]) else "")
  {
    var minus := if i < |exp| then ["- " + exp[i]] else [];
    var plus := if i < |act| then ["+ " + act[i]] else [];
    UnlinesConcat(minus, plus);
    if i < |exp| {
      MarkedLine("- ", exp[i]);
    }
    if i < |act| {
      MarkedLine("+ ", act[i]);
    }
  }

  lemma DiffText(exp: seq<string>, act: seq<string>, i: nat)
    ensures Unlines(DiffLines(exp, act, i + 1)) == Unlines(DiffLines(exp, act, i)) + Unlines(DiffAt(exp, act, i))
  {
    UnlinesConcat(DiffLines(exp, act, i), DiffAt(exp, act, i));
  }

  lemma PushedBoth(out: string, minus: string, plus: string)
    ensures out + minus + plus == out + (minus + plus)
    ensures minus == "" ==> out + minus == out
    ensures plus == "" ==> out + minus + plus == out + minus
  {
  }

  method Run(expected: string, actual: string) returns (r: Option<string>)
    ensures r == Diff(expected, actual)
  {
    if expected == actual {
      return None;
    }
    var exp, act := Lines(expected), Lines(actual);
    var out := "";
    for i := 0 to Max(|exp|, |act|)
      invariant out == Unlines(DiffLines(exp, act, i))
    {
      ghost var before := out;
      DiffText(exp, act, i);
      if i < |exp| && i < |act| && exp[i] == act[i] {
        SameAt(exp, act, i);
        out := out + Marked("  ", exp[i]);
      } else {
        DifferentAt(exp, act, i);
        if i < |exp| {
          out := out + Marked("- ", exp[i]);
        }
        if i < |act| {
          out := out + Marked("+ ", act[i]);
        }
        PushedBoth(before, if i < |exp| then Marked("- ", exp[i]) else "",
                   if i < |act| then Marked("+ ", act[i]) else "");
      }
    }
    return Some(out);
  }

  // ---- Reading a diff back ----

  /** The lines that are unmarked or carry `mark`, without their two-character
      margin. */
  function Keep(ls: seq<string>, mark: string): seq<string> {
    if ls == [] then []
    else
      (if |ls[0]| >= 2 && (ls[0][..2] == "  " || ls[0][..2] == mark) then [ls[0][2..]] else [])
      + Keep(ls[1..], mark)
  }

  lemma {:induction false} KeepConcat(a: seq<string>, b: seq<string>, mark: string)
    ensures Keep(a + b, mark) == Keep(a, mark) + Keep(b, mark)
  {
    if a == [] {
      assert a + b == b;
    } else {
      assert (a + b)[1..] == a[1..] + b;
      KeepConcat(a[1..], b, mark);
    }
  }

  function Prefix(s: seq<string>, n: nat): seq<string> {
    if n <= |s| then s[..n] else s
  }

  /** Line `i` of a list, if there is one. */
  function LineAt(ls: seq<string>, i: nat): seq<string> {
    if i < |ls| then [ls[i]] else []
  }

  lemma PrefixStep(ls: seq<string>, n: nat)
    requires n > 0
    ensures Prefix(ls, n) == Prefix(ls, n - 1) + LineAt(ls, n - 1)
  {
  }

  /** What both sides have at position `i`. */
  function CommonAt(exp: seq<string>, act: seq<string>, i: nat): seq<string> {
    if i < |exp| && i < |act| && exp[i] == act[i] then [exp[i]] else []
  }

  /** The lines that are the same at the same position, in order. */
  function Common(exp: seq<string>, act: seq<string>, n: nat): seq<string> {
    if n == 0 then [] else Common(exp, act, n - 1) + CommonAt(exp, act, n - 1)
  }

  lemma KeepOne(margin: string, line: string, mark: string)
    requires |margin| == 2
    ensures Keep([margin + line], mark) == if margin == "  " || margin == mark then [line] else []
  {
    var l := margin + line;
    assert l[..2] == margin && l[2..] == line;
    var one: seq<string> := [l];
    assert one[1..] == [];
  }

  lemma KeepTwo(e: string, a: string, mark: string)
    ensures Keep(["- " + e] + ["+ " + a], mark)
         == (if "- " == mark then [e] else []) + (if "+ " == mark then [a] else [])
  {
    KeepConcat(["- " + e], ["+ " + a], mark);
    KeepOne("- ", e, mark);
    KeepOne("+ ", a, mark);
  }

  /** What a mark shows of position `i`. */
  function ShownAt(exp: seq<string>, act: seq<string>, mark: string, i: nat): seq<string> {
    if mark == "- " then LineAt(exp, i) else if mark == "+ " then LineAt(act, i) else CommonAt(exp, act, i)
  }

  lemma KeepAt(exp: seq<string>, act: seq<string>, mark: string, i: nat)
    requires mark == "- " || mark == "+ " || mark == "  "
    ensures Keep(DiffAt(exp, act, i), mark) == ShownAt(exp, act, mark, i)
  {
    if i < |exp| && i < |act| && exp[i] == act[i] {
      KeepOne("  ", exp[i], mark);
    } else if i < |exp| && i < |act| {
      KeepTwo(exp[i], act[i], mark);
    } else if i < |exp| {
      KeepOne("- ", exp[i], mark);
    } else if i < |act| {
      KeepOne("+ ", act[i], mark);
    }
  }

  function Shown(exp: seq<string>, act: seq<string>, mark: string, n: nat): seq<string> {
    if n == 0 then [] else Shown(exp, act, mark, n - 1) + ShownAt(exp, act, mark, n - 1)
  }

  lemma KeepStep(exp: seq<string>, act: seq<string>, mark: string, i: nat)
    requires mark == "- " || mark == "+ " || mark == "  "
    ensures Keep(DiffLines(exp, act, i + 1), mark) == Keep(DiffLines(exp, act, i), mark) + ShownAt(exp, act, mark, i)
  {
    KeepConcat(DiffLines(exp, act, i), DiffAt(exp, act, i), mark);
    KeepAt(exp, act, mark, i);
  }

  lemma {:induction false} KeepDiff(exp: seq<string>, act: seq<string>, mark: string, n: nat)
    requires mark == "- " || mark == "+ " || mark == "  "
    ensures Keep(DiffLines(exp, act, n), mark) == Shown(exp, act, mark, n)
  {
    if n > 0 {
      KeepDiff(exp, act, mark, n - 1);
      KeepStep(exp, act, mark, n - 1);
      assert n - 1 + 1 == n;
    }
  }

  /** Each mark shows its side, and no mark what is common. */
  lemma {:induction false} ShownIs(exp: seq<string>, act: seq<string>, n: nat)
    ensures Shown(exp, act, "- ", n) == Prefix(exp, n)
    ensures Shown(exp, act, "+ ", n) == Prefix(act, n)
    ensures Shown(exp, act, "  ", n) == Common(exp, act, n)
  {
    if n > 0 {
      ShownIs(exp, act, n - 1);
      PrefixStep(exp, n);
      PrefixStep(act, n);
    }
  }

  // ---- Carriage returns ----

  /** Every line starts with a two-character margin that no carriage return is in. */
  predicate Margined(ls: seq<string>) {
    forall i :: 0 <= i < |ls| ==> |ls[i]| >= 2 && ls[i][1] != '\r'
  }

  lemma MarginSurvives(l: string)
    requires |l| >= 2 && l[1] != '\r'
    ensures |StripCr(l)| >= 2 && StripCr(l)[..2] == l[..2] && StripCr(l)[2..] == StripCr(l[2..])
  {
  }

  /** It is all the same whether carriage returns go before or after the margin. */
  lemma {:induction false} KeepStripped(ls: seq<string>, mark: string)
    requires Margined(ls)
    ensures Keep(StripCrs(ls), mark) == StripCrs(Keep(ls, mark))
  {
    if ls != [] {
      var stripped := StripCrs(ls);
      KeepStripped(ls[1..], mark);
      MarginSurvives(ls[0]);
      assert stripped[1..] == StripCrs(ls[1..]);
      var rest := Keep(ls[1..], mark);
      if ls[0][..2] == "  " || ls[0][..2] == mark {
        assert ([ls[0][2..]] + rest)[1..] == rest;
      } else {
        assert [] + rest == rest;
      }
    }
  }

  lemma {:induction false} DiffIsMargined(exp: seq<string>, act: seq<string>, n: nat)
    ensures Margined(DiffLines(exp, act, n))
  {
    if n > 0 {
      DiffIsMargined(exp, act, n - 1);
    }
  }

  /** Reading a printed diff back. */
  lemma ReadBack(expected: string, actual: string, mark: string)
    requires expected != actual && (mark == "- " || mark == "+ " || mark == "  ")
    ensures var exp, act := Lines(expected), Lines(actual);
            Keep(Lines(Diff(expected, actual).value), mark) == StripCrs(Shown(exp, act, mark, Max(|exp|, |act|)))
  {
    var exp, act := Lines(expected), Lines(actual);
    var n := Max(|exp|, |act|);
    LinesHaveNoNewline(expected);
    LinesHaveNoNewline(actual);
    assert forall i :: 0 <= i < |exp| ==> exp[i] in exp;
    assert forall i :: 0 <= i < |act| ==> act[i] in act;
    DiffHasNoNewline(exp, act, n);
    assert forall l :: l in DiffLines(exp, act, n) ==> OneLine(l);
    LinesOfUnlines(DiffLines(exp, act, n));
    DiffIsMargined(exp, act, n);
    KeepStripped(DiffLines(exp, act, n), mark);
    KeepDiff(exp, act, mark, n);
  }

  /** The unmarked lines are exactly those that both sides have at the same position. */
  lemma UnmarkedIffCommon(expected: string, actual: string)
    requires expected != actual
    ensures Keep(Lines(Diff(expected, actual).value), "  ")
         == StripCrs(Common(Lines(expected), Lines(actual), Max(|Lines(expected)|, |Lines(actual)|)))
  {
    var exp, act := Lines(expected), Lines(actual);
    ReadBack(expected, actual, "  ");
    ShownIs(exp, act, Max(|exp|, |act|));
  }

  /** At a position where the sides differ the expected line comes first. */
  lemma ExpectedComesFirst(e: string, a: string)
    requires e != "" && a != "" && e != a && '\n' !in e && '\n' !in a
    ensures Diff(e, a) == Some(("- " + e + "\n") + ("+ " + a + "\n"))
  {
    LinesAre([], e);
    LinesAre([], a);
    assert Unlines([]) + e == e && Unlines([]) + a == a;
    assert Lines(e) == [e] && Lines(a) == [a];
    assert DiffLines([e], [a], 0) == [];
    assert DiffLines([e], [a], 1) == ["- " + e] + ["+ " + a];
    UnlinesConcat(["- " + e], ["+ " + a]);
    MarkedLine("- ", e);
    MarkedLine("+ ", a);
  }

  predicate OneLine(l: string) {
    '\n' !in l
  }

  lemma DiffAtHasNoNewline(exp: seq<string>, act: seq<string>, i: nat)
    requires i < |exp| ==> OneLine(exp[i])
    requires i < |act| ==> OneLine(act[i])
    ensures forall j :: 0 <= j < |DiffAt(exp, act, i)| ==> OneLine(DiffAt(exp, act, i)[j])
  {
  }

  lemma {:induction false} DiffHasNoNewline(exp: seq<string>, act: seq<string>, n: nat)
    requires forall i :: 0 <= i < |exp| ==> OneLine(exp[i])
    requires forall i :: 0 <= i < |act| ==> OneLine(act[i])
    ensures forall j :: 0 <= j < |DiffLines(exp, act, n)| ==> OneLine(DiffLines(exp, act, n)[j])
  {
    if n > 0 {
      DiffHasNoNewline(exp, act, n - 1);
      DiffAtHasNoNewline(exp, act, n - 1);
    }
  }

  /** What the diff shows of each side: every line in order, less a carriage return
      at its end. */
  lemma DiffShows(expected: string, actual: string)
    requires expected != actual
    ensures Keep(Lines(Diff(expected, actual).value), "- ") == StripCrs(Lines(expected))
    ensures Keep(Lines(Diff(expected, actual).value), "+ ") == StripCrs(Lines(actual))
  {
    var exp, act := Lines(expected), Lines(actual);
    var n := Max(|exp|, |act|);
    ReadBack(expected, actual, "- ");
    ReadBack(expected, actual, "+ ");
    ShownIs(exp, act, n);
    assert Prefix(exp, n) == exp && Prefix(act, n) == act;
  }

  /** The differ is silent exactly on equal strings; otherwise the unmarked and `-`
      lines are the expected lines and the unmarked and `+` lines the actual ones,
      in order, if and only if no line ends in a carriage return. */
  lemma Lossless(expected: string, actual: string)
    ensures Diff(expected, actual).None? <==> expected == actual
    ensures expected != actual ==>
              (Keep(Lines(Diff(expected, actual).value), "- ") == Lines(expected)
               <==> NoLineEndsInCr(Lines(expected)))
    ensures expected != actual ==>
              (Keep(Lines(Diff(expected, actual).value), "+ ") == Lines(actual)
               <==> NoLineEndsInCr(Lines(actual)))
  {
    if expected != actual {
      DiffShows(expected, actual);
      StripsNothingIff(Lines(expected));
      StripsNothingIff(Lines(actual));
    }
  }
}
