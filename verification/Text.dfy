/**
 The string operations of the Rust standard library that the baseline file and
 the line differ rely on, with the laws their proofs use.
 */
module Text {
  import opened Types

  // ---- Searching and cutting ----

  /** Index of the first `c`, or the length. */
  function IndexOf(s: string, c: char): (i: nat)
    ensures i <= |s|
    ensures c !in s[..i]
    ensures i < |s| ==> s[i] == c
  {
    if s == "" || s[0] == c then 0 else
      var i := 1 + IndexOf(s[1..], c);
      assert s[..i] == [s[0]] + s[1..][..i - 1];
      i
  }

  lemma {:induction false} IndexOfUnique(a: string, c: char, b: string)
    requires c !in a
    ensures IndexOf(a + [c] + b, c) == |a|
  {
    if a != "" {
      assert (a + [c] + b)[1..] == a[1..] + [c] + b;
      IndexOfUnique(a[1..], c, b);
    }
  }

  lemma IndexOfAbsent(s: string, c: char)
    requires c !in s
    ensures IndexOf(s, c) == |s|
  {
  }

  /** `str::split_once`: the parts around the first `c`. */
  function SplitOnce(s: string, c: char): Option<(string, string)> {
    var i := IndexOf(s, c);
    if i == |s| then None else Some((s[..i], s[i + 1..]))
  }

  /** The parts are those around the first `c`, and there are none iff there is no `c`. */
  lemma SplitAtFirst(a: string, c: char, b: string)
    requires c !in a
    ensures SplitOnce(a + [c] + b, c) == Some((a, b))
  {
    IndexOfUnique(a, c, b);
    var s := a + [c] + b;
    assert s[..|a|] == a && s[|a| + 1..] == b;
  }

  lemma NoSplit(s: string, c: char)
    requires c !in s
    ensures SplitOnce(s, c).None?
  {
    IndexOfAbsent(s, c);
  }

  /** `split(c).next()`: everything before the first `c`. */
  function Before(s: string, c: char): string {
    s[..IndexOf(s, c)]
  }

  /** `replace(c, "")`. */
  function Remove(s: string, c: char): string {
    if s == "" then "" else (if s[0] == c then "" else [s[0]]) + Remove(s[1..], c)
  }

  lemma {:induction false} RemoveAbsent(s: string, c: char)
    requires c !in s
    ensures Remove(s, c) == s
  {
    if s != "" {
      RemoveAbsent(s[1..], c);
    }
  }

  /** Every `c` goes, up to the first one and from there on, and nothing else does. */
  lemma {:induction false} RemoveAtFirst(a: string, c: char, b: string)
    requires c !in a
    ensures Remove(a + [c] + b, c) == a + Remove(b, c)
  {
    var s := a + [c] + b;
    if a == "" {
      assert s[1..] == b;
    } else {
      assert s[1..] == a[1..] + [c] + b;
      RemoveAtFirst(a[1..], c, b);
    }
  }

  lemma {:induction false} RemoveIsExact(s: string, c: char)
    ensures c !in Remove(s, c)
    ensures multiset(Remove(s, c)) == multiset(s)[c := 0]
  {
    if s != "" {
      RemoveIsExact(s[1..], c);
      assert s == [s[0]] + s[1..];
    }
  }

  // ---- Trimming ----

  /** Unicode White_Space, the class `str::trim` strips. */
  predicate IsSpace(c: char) {
    || '\U{9}' <= c <= '\U{D}' || c == ' ' || c == '\U{85}' || c == '\U{A0}' || c == '\U{1680}'
    || '\U{2000}' <= c <= '\U{200A}' || c == '\U{2028}' || c == '\U{2029}' || c == '\U{202F}'
    || c == '\U{205F}' || c == '\U{3000}'
  }

  function TrimStart(s: string): string {
    if s != "" && IsSpace(s[0]) then TrimStart(s[1..]) else s
  }

  function TrimEnd(s: string): string {
    if s != "" && IsSpace(s[|s| - 1]) then TrimEnd(s[..|s| - 1]) else s
  }

  function Trim(s: string): string {
    TrimEnd(TrimStart(s))
  }

  /** No outer white space. */
  predicate IsTrimmed(s: string) {
    s == "" || (!IsSpace(s[0]) && !IsSpace(s[|s| - 1]))
  }

  lemma {:induction false} TrimStartFacts(s: string)
    ensures TrimStart(s) == "" || !IsSpace(TrimStart(s)[0])
    ensures forall c :: c in TrimStart(s) ==> c in s
  {
    if s != "" && IsSpace(s[0]) {
      TrimStartFacts(s[1..]);
    }
  }

  lemma {:induction false} TrimEndFacts(s: string)
    ensures TrimEnd(s) == "" || (s != "" && TrimEnd(s)[0] == s[0] && !IsSpace(TrimEnd(s)[|TrimEnd(s)| - 1]))
    ensures forall c :: c in TrimEnd(s) ==> c in s
  {
    if s != "" && IsSpace(s[|s| - 1]) {
      TrimEndFacts(s[..|s| - 1]);
    }
  }

  lemma TrimFacts(s: string)
    ensures IsTrimmed(Trim(s))
    ensures forall c :: c in Trim(s) ==> c in s
    ensures IsTrimmed(s) ==> Trim(s) == s
  {
    TrimStartFacts(s);
    TrimEndFacts(TrimStart(s));
  }

  predicate AllSpace(s: string) {
    forall i :: 0 <= i < |s| ==> IsSpace(s[i])
  }

  lemma {:induction false} TrimStartCuts(s: string) returns (l: string)
    ensures s == l + TrimStart(s) && AllSpace(l)
  {
    l := "";
    if s != "" && IsSpace(s[0]) {
      var rest := TrimStartCuts(s[1..]);
      l := [s[0]] + rest;
      assert s == [s[0]] + s[1..];
    }
  }

  lemma {:induction false} TrimEndCuts(s: string) returns (r: string)
    ensures s == TrimEnd(s) + r && AllSpace(r)
  {
    r := "";
    if s != "" && IsSpace(s[|s| - 1]) {
      var rest := TrimEndCuts(s[..|s| - 1]);
      r := rest + [s[|s| - 1]];
      assert s == s[..|s| - 1] + [s[|s| - 1]];
    }
  }

  /** Trimming cuts white space off both ends and leaves none there. */
  lemma TrimCuts(s: string) returns (l: string, r: string)
    ensures s == l + Trim(s) + r && AllSpace(l) && AllSpace(r)
    ensures Trim(s) == "" || (!IsSpace(Trim(s)[0]) && !IsSpace(Trim(s)[|Trim(s)| - 1]))
  {
    l := TrimStartCuts(s);
    r := TrimEndCuts(TrimStart(s));
    TrimFacts(s);
  }

  /** The 25 characters with the Unicode property White_Space. */
  lemma WhiteSpaceIs(c: char)
    ensures IsSpace(c) <==>
            c in {'\t', '\n', '\U{B}', '\U{C}', '\r', ' ', '\U{85}', '\U{A0}', '\U{1680}',
                  '\U{2000}', '\U{2001}', '\U{2002}', '\U{2003}', '\U{2004}', '\U{2005}', '\U{2006}',
                  '\U{2007}', '\U{2008}', '\U{2009}', '\U{200A}', '\U{2028}', '\U{2029}', '\U{202F}',
                  '\U{205F}', '\U{3000}'}
  {
    var n := c as int;
    assert c == n as char;
  }

  lemma TrimOneSpace(s: string)
    requires IsTrimmed(s)
    ensures Trim(" " + s) == s
    ensures Trim(s + " ") == s
  {
    TrimFacts(s);
    assert (" " + s)[1..] == s;
    if s == "" {
      assert s + " " == " ";
      assert " "[1..] == "";
    } else {
      assert TrimStart(s + " ") == s + " ";
      assert (s + " ")[..|s|] == s;
    }
  }

  // ---- Lines ----

  function StripCr(s: string): string {
    if s != "" && s[|s| - 1] == '\r' then s[..|s| - 1] else s
  }

  /** `str::lines`: a final newline ends the last line, and a carriage return
      goes with the newline that follows it. */
  function Lines(s: string): seq<string>
    decreases |s|
  {
    if s == "" then []
    else
      var i := IndexOf(s, '\n');
      if i == |s| then [s] else [StripCr(s[..i])] + Lines(s[i + 1..])
  }

  /** Every line followed by a newline. */
  function Unlines(ls: seq<string>): string {
    if ls == [] then "" else ls[0] + "\n" + Unlines(ls[1..])
  }

  /** One line of text, which survives being split into lines. */
  predicate Unbroken(l: string) {
    '\n' !in l && StripCr(l) == l
  }

  function StripCrs(ls: seq<string>): seq<string> {
    if ls == [] then [] else [StripCr(ls[0])] + StripCrs(ls[1..])
  }

  lemma {:induction false} StripCrsConcat(a: seq<string>, b: seq<string>)
    ensures StripCrs(a + b) == StripCrs(a) + StripCrs(b)
  {
    if a == [] {
      assert a + b == b;
    } else {
      assert (a + b)[1..] == a[1..] + b;
      StripCrsConcat(a[1..], b);
    }
  }

  /** No line of the list ends in a carriage return. */
  predicate NoLineEndsInCr(ls: seq<string>) {
    forall i :: 0 <= i < |ls| ==> ls[i] == "" || ls[i][|ls[i]| - 1] != '\r'
  }

  lemma {:induction false} StripsNothingIff(ls: seq<string>)
    ensures StripCrs(ls) == ls <==> NoLineEndsInCr(ls)
  {
    if ls != [] {
      StripsNothingIff(ls[1..]);
      assert ls == [ls[0]] + ls[1..];
      assert StripCr(ls[0]) == ls[0] <==> (ls[0] == "" || ls[0][|ls[0]| - 1] != '\r');
    }
  }

  lemma {:induction false} LinesOfUnlines(ls: seq<string>)
    requires forall l :: l in ls ==> '\n' !in l
    ensures Lines(Unlines(ls)) == StripCrs(ls)
  {
    if ls != [] {
      var l, rest := ls[0], Unlines(ls[1..]);
      LinesOfUnlines(ls[1..]);
      FirstLine(l, rest);
      assert Unlines(ls) == l + ['\n'] + rest;
    }
  }

  /** Every text is a list of ended lines and what follows the last newline. */
  lemma {:induction false} EveryText(s: string) returns (ls: seq<string>, last: string)
    ensures s == Unlines(ls) + last && '\n' !in last && forall i :: 0 <= i < |ls| ==> '\n' !in ls[i]
    decreases |s|
  {
    var i := IndexOf(s, '\n');
    if i == |s| {
      ls, last := [], s;
      assert s[..i] == s;
    } else {
      var rest;
      rest, last := EveryText(s[i + 1..]);
      ls := [s[..i]] + rest;
      assert ls[1..] == rest;
      assert s == s[..i] + "\n" + s[i + 1..];
    }
  }

  lemma FirstLine(l: string, rest: string)
    requires '\n' !in l
    ensures Lines(l + ['\n'] + rest) == [StripCr(l)] + Lines(rest)
  {
    var s := l + ['\n'] + rest;
    IndexOfUnique(l, '\n', rest);
    assert s[..|l|] == l && s[|l| + 1..] == rest;
  }

  /** Its lines are the ended ones, each without a carriage return before the newline,
      and the last one as it is, unless it is empty. */
  lemma {:induction false} LinesAre(ls: seq<string>, last: string)
    requires '\n' !in last && forall i :: 0 <= i < |ls| ==> '\n' !in ls[i]
    ensures Lines(Unlines(ls) + last) == StripCrs(ls) + if last == "" then [] else [last]
  {
    if ls == [] {
      assert Unlines(ls) + last == last;
      IndexOfAbsent(last, '\n');
    } else {
      var l, rest := ls[0], Unlines(ls[1..]) + last;
      LinesAre(ls[1..], last);
      assert Lines(Unlines(ls) + last) == [StripCr(l)] + Lines(rest) by {
        assert Unlines(ls) + last == l + ['\n'] + rest;
        FirstLine(l, rest);
      }
    }
  }

  lemma {:induction false} UnlinesConcat(a: seq<string>, b: seq<string>)
    ensures Unlines(a + b) == Unlines(a) + Unlines(b)
  {
    if a == [] {
      assert a + b == b;
    } else {
      assert (a + b)[1..] == a[1..] + b;
      UnlinesConcat(a[1..], b);
    }
  }

  lemma {:induction false} LinesHaveNoNewline(s: string)
    ensures forall l :: l in Lines(s) ==> '\n' !in l
    decreases |s|
  {
    if s != "" {
      var i := IndexOf(s, '\n');
      if i < |s| {
        LinesHaveNoNewline(s[i + 1..]);
      }
    }
  }

  // ---- Decimal numbers ----

  predicate IsDigit(c: char) {
    '0' <= c <= '9'
  }

  predicate AllDigits(s: string) {
    forall i :: 0 <= i < |s| ==> IsDigit(s[i])
  }

  function Digit(d: nat): (c: char)
    requires d < 10
    ensures IsDigit(c) && DigitValue(c) == d
  {
    ('0' as int + d) as char
  }

  function DigitValue(c: char): nat
    requires IsDigit(c)
  {
    c as int - '0' as int
  }

  /** `{n}` as the formatter prints it. */
  function Decimal(n: nat): string {
    if n < 10 then [Digit(n)] else Decimal(n / 10) + [Digit(n % 10)]
  }

  function Value(s: string): nat
    requires AllDigits(s)
  {
    if s == "" then 0 else 10 * Value(s[..|s| - 1]) + DigitValue(s[|s| - 1])
  }

  /** `str::parse::<u64>`: one optional plus sign, then ASCII digits, in range. */
  function ParseU64(s: string): Option<u64> {
    var digits := if s != "" && s[0] == '+' then s[1..] else s;
    if digits == "" || !AllDigits(digits) || Value(digits) > U64_MAX then None else Some(Value(digits))
  }

  lemma {:induction false} DecimalFacts(n: nat)
    ensures Decimal(n) != "" && AllDigits(Decimal(n))
    ensures Value(Decimal(n)) == n
  {
    if n < 10 {
      assert Decimal(n)[..0] == "";
    } else {
      DecimalFacts(n / 10);
      assert Decimal(n)[..|Decimal(n)| - 1] == Decimal(n / 10);
    }
  }

  /** Printing then parsing is the identity on every `u64`; past the range the
      parser refuses. */
  lemma ParseDecimal(n: nat)
    ensures ParseU64(Decimal(n)) == if n <= U64_MAX then Some(n) else None
  {
    DecimalFacts(n);
  }

  function Zeros(k: nat): string {
    if k == 0 then "" else "0" + Zeros(k - 1)
  }

  lemma {:induction false} DigitsAre(d: string) returns (k: nat)
    requires d != "" && AllDigits(d)
    ensures d == Zeros(k) + Decimal(Value(d))
  {
    var init, last := d[..|d| - 1], d[|d| - 1];
    assert d == init + [last];
    assert Digit(DigitValue(last)) == last;
    k := 0;
    if init != "" {
      k := DigitsAre(init);
      if Value(init) == 0 {
        assert Decimal(0) == "0";
        ZerosSnoc(k);
        k := k + 1;
      } else {
        assert (10 * Value(init) + DigitValue(last)) / 10 == Value(init);
        assert Decimal(Value(d)) == Decimal(Value(init)) + [last];
      }
    }
  }

  lemma {:induction false} ZerosSnoc(k: nat)
    ensures Zeros(k) + "0" == Zeros(k + 1)
    ensures AllDigits(Zeros(k))
  {
    if k > 0 {
      ZerosSnoc(k - 1);
      assert "0" + Zeros(k - 1) + "0" == "0" + (Zeros(k - 1) + "0");
    }
  }

  lemma {:induction false} ValueOfZeros(k: nat, d: string)
    requires AllDigits(d)
    ensures AllDigits(Zeros(k) + d) && Value(Zeros(k) + d) == Value(d)
    decreases k + |d|
  {
    ZerosSnoc(k);
    var s := Zeros(k) + d;
    if d != "" {
      assert s[..|s| - 1] == Zeros(k) + d[..|d| - 1];
      ValueOfZeros(k, d[..|d| - 1]);
    } else if k > 0 {
      ZerosSnoc(k - 1);
      assert s == Zeros(k - 1) + "0";
      assert s[..|s| - 1] == Zeros(k - 1) + "";
      ValueOfZeros(k - 1, "");
    }
  }

  /** What parses as a number: an optional plus sign, any zeros, and the decimal of a
      value that fits. */
  lemma NumberParses(plus: bool, zeros: nat, n: nat)
    ensures ParseU64((if plus then "+" else "") + (Zeros(zeros) + Decimal(n))) == if n <= U64_MAX then Some(n) else None
  {
    DecimalFacts(n);
    ValueOfZeros(zeros, Decimal(n));
    var digits := Zeros(zeros) + Decimal(n);
    assert "" + digits == digits;
    assert ("+" + digits)[1..] == digits;
    assert IsDigit(digits[0]);
  }

  /** And nothing else does. */
  lemma ParsedIsANumber(s: string) returns (plus: bool, zeros: nat)
    requires ParseU64(s).Some?
    ensures s == (if plus then "+" else "") + (Zeros(zeros) + Decimal(ParseU64(s).value))
  {
    plus := s[0] == '+';
    var digits := if plus then s[1..] else s;
    zeros := DigitsAre(digits);
  }

  lemma DecimalInjective(a: nat, b: nat)
    requires Decimal(a) == Decimal(b)
    ensures a == b
  {
    DecimalFacts(a);
    DecimalFacts(b);
  }

  // ---- The order of map keys ----

  /** Byte order of UTF-8 strings, which is the order of their code points. */
  predicate Less(a: string, b: string) {
    b != "" && (a == "" || a[0] < b[0] || (a[0] == b[0] && Less(a[1..], b[1..])))
  }

  /** The order is lexicographic: the first difference decides, and a proper prefix
      comes first. */
  lemma {:induction false} LessIff(a: string, b: string)
    ensures Less(a, b) <==>
            exists i :: 0 <= i <= |a| && i < |b| && a[..i] == b[..i] && (i == |a| || a[i] < b[i])
  {
    if a == "" || b == "" || a[0] != b[0] {
      if Less(a, b) {
        assert a[..0] == b[..0];
      }
      HeadsAgree(a, b);
    } else {
      LessIff(a[1..], b[1..]);
      forall i | 0 <= i <= |a| && i < |b| && a[..i] == b[..i] && (i == |a| || a[i] < b[i]) ensures Less(a[1..], b[1..]) {
        PrefixTail(a, b, i - 1);
      }
      if j :| 0 <= j <= |a[1..]| && j < |b[1..]| && a[1..][..j] == b[1..][..j] && (j == |a[1..]| || a[1..][j] < b[1..][j]) {
        PrefixTail(a, b, j);
      }
    }
  }

  lemma HeadsAgree(a: string, b: string)
    ensures forall i :: 0 < i <= |a| && i <= |b| && a[..i] == b[..i] ==> a[0] == b[0]
  {
    forall i | 0 < i <= |a| && i <= |b| && a[..i] == b[..i] ensures a[0] == b[0] {
      assert a[..i][0] == b[..i][0];
    }
  }

  lemma PrefixTail(a: string, b: string, j: nat)
    requires a != "" && b != "" && a[0] == b[0] && j < |a| && j < |b|
    ensures a[..j + 1] == b[..j + 1] <==> a[1..][..j] == b[1..][..j]
  {
    assert a[..j + 1] == [a[0]] + a[1..][..j];
    assert b[..j + 1] == [b[0]] + b[1..][..j];
  }

  lemma {:induction false} LessTotal(a: string, b: string)
    ensures a == b || Less(a, b) || Less(b, a)
  {
    if a != "" && b != "" && a[0] == b[0] {
      LessTotal(a[1..], b[1..]);
      assert a == [a[0]] + a[1..] && b == [b[0]] + b[1..];
    }
  }

  lemma {:induction false} LessTransitive(a: string, b: string, c: string)
    requires Less(a, b) && Less(b, c)
    ensures Less(a, c)
  {
    if a != "" && a[0] == b[0] == c[0] {
      LessTransitive(a[1..], b[1..], c[1..]);
    }
  }

  lemma {:induction false} LessIrreflexive(a: string)
    ensures !Less(a, a)
  {
    if a != "" {
      LessIrreflexive(a[1..]);
    }
  }

  ghost predicate Ascending(ks: seq<string>) {
    forall i, j :: 0 <= i < j < |ks| ==> Less(ks[i], ks[j])
  }

  ghost predicate IsLeast(k: string, keys: set<string>) {
    k in keys && forall x :: x in keys ==> x == k || Less(k, x)
  }

  lemma {:induction false} LeastExists(keys: set<string>)
    requires keys != {}
    ensures exists k :: IsLeast(k, keys)
    decreases |keys|
  {
    var x :| x in keys;
    if keys == {x} {
      assert IsLeast(x, keys);
    } else {
      LeastExists(keys - {x});
      var k :| IsLeast(k, keys - {x});
      LessTotal(k, x);
      if Less(k, x) {
        assert IsLeast(k, keys);
      } else {
        forall y | y in keys ensures y == x || Less(x, y) {
          if y != x && y != k {
            LessTransitive(x, k, y);
          }
        }
        assert IsLeast(x, keys);
      }
    }
  }

  /** The order in which a `BTreeMap` with these keys is traversed. */
  ghost function KeyOrder(keys: set<string>): (ks: seq<string>)
    ensures forall k :: k in ks <==> k in keys
    ensures forall i :: 0 <= i < |ks| ==> ks[i] in keys
    decreases |keys|
  {
    if keys == {} then []
    else
      LeastExists(keys);
      var k :| IsLeast(k, keys);
      [k] + KeyOrder(keys - {k})
  }

  lemma {:induction false} KeyOrderAscending(keys: set<string>)
    ensures Ascending(KeyOrder(keys))
    decreases |keys|
  {
    if keys != {} {
      var ks := KeyOrder(keys);
      LeastExists(keys);
      LeastUnique(keys);
      assert IsLeast(ks[0], keys) && ks == [ks[0]] + KeyOrder(keys - {ks[0]});
      KeyOrderAscending(keys - {ks[0]});
      assert forall i :: 0 < i < |ks| ==> ks[i] in keys - {ks[0]};
      assert forall i :: 0 < i < |ks| ==> ks[i] == KeyOrder(keys - {ks[0]})[i - 1];
    }
  }

  lemma KeysDistinct(keys: set<string>, i: nat, j: nat)
    requires i < |KeyOrder(keys)| && j < |KeyOrder(keys)| && i != j
    ensures KeyOrder(keys)[i] != KeyOrder(keys)[j]
  {
    KeyOrderAscending(keys);
    LessIrreflexive(KeyOrder(keys)[i]);
  }

  /** The least key, found by a scan. */
  method LeastKey(keys: set<string>) returns (k: string)
    requires keys != {}
    ensures IsLeast(k, keys)
  {
    k :| k in keys;
    var left := keys - {k};
    while left != {}
      invariant k in keys && left <= keys
      invariant forall x :: x in keys - left ==> x == k || Less(k, x)
      decreases |left|
    {
      var x :| x in left;
      LessTotal(k, x);
      if Less(x, k) {
        forall y | y in keys - (left - {x}) ensures y == x || Less(x, y) {
          if y != x && y != k {
            LessTransitive(x, k, y);
          }
        }
        k := x;
      }
      left := left - {x};
    }
  }

  lemma LeastComesFirst(keys: set<string>, k: string)
    requires IsLeast(k, keys)
    ensures KeyOrder(keys) == [k] + KeyOrder(keys - {k})
  {
    LeastUnique(keys);
  }

  lemma Traversed(keys: set<string>, ks: seq<string>, left: set<string>, k: string)
    requires KeyOrder(keys) == ks + KeyOrder(left) && IsLeast(k, left)
    ensures KeyOrder(keys) == (ks + [k]) + KeyOrder(left - {k})
  {
    var rest := KeyOrder(left - {k});
    assert KeyOrder(left) == [k] + rest by {
      LeastComesFirst(left, k);
    }
    assert ks + ([k] + rest) == (ks + [k]) + rest;
  }

  /** A traversal of the keys in map order. */
  method KeysInOrder(keys: set<string>) returns (ks: seq<string>)
    ensures ks == KeyOrder(keys)
  {
    ks := [];
    var left := keys;
    while left != {}
      invariant KeyOrder(keys) == ks + KeyOrder(left)
      decreases |left|
    {
      var k := LeastKey(left);
      Traversed(keys, ks, left, k);
      ks := ks + [k];
      left := left - {k};
    }
  }

  lemma LeastUnique(keys: set<string>)
    ensures forall a, b :: IsLeast(a, keys) && IsLeast(b, keys) ==> a == b
  {
    forall a, b | IsLeast(a, keys) && IsLeast(b, keys) ensures a == b {
      if a != b {
        LessTransitive(a, b, a);
        LessIrreflexive(a);
      }
    }
  }
}
