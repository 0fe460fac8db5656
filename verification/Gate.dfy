/**
 The regression gate: exact percentage comparison in checked `u128` arithmetic,
 the two-sided comparison of measurements with a baseline, and the injection the
 gate tests itself with.
 */
module Gate {
  import opened Types
  import opened Text
  import opened BaselineFile
  import Fee

  datatype Metric = CpuInsns | MemBytes

  datatype Finding =
    | Regressed(scenario: string, metric: Metric, baseline: u64, measured: u64)
    | MissingBaseline(scenario: string)
    | StaleBaseline(scenario: string)

  type Costs = map<string, Cost>

  // ---- Percentages ----

  /** `now` is more than `thresholdPct` percent above `base`. */
  predicate Exceeds(base: u64, now: u64, thresholdPct: u64) {
    now * 100 > base * (100 + thresholdPct)
  }

  /** One of the two `u128` products does not fit. */
  predicate Overflows(base: u64, now: u64, thresholdPct: u64) {
    now * 100 > U128_MAX || base * (100 + thresholdPct) > U128_MAX
  }

  /** The comparison as it runs: an overflowing product traps. */
  function CheckedExceeds(base: u64, now: u64, thresholdPct: u64): Option<bool> {
    if Overflows(base, now, thresholdPct) then None else Some(now * 100 > base * (100 + thresholdPct))
  }

  /** Signed change in tenths of a percent; division truncates toward zero. */
  function DeltaPermille(base: u64, now: u64): int {
    if base == 0 then if now == 0 then 0 else I128_MAX
    else
      var d := (now - base) * 1000;
      if d >= 0 then d / base else -((-d) / base)
  }

  /** No input makes the comparison trap iff the threshold is at most
      `u64::MAX - 98`. */
  lemma NeverTrapsIff(thresholdPct: u64)
    ensures (forall base: u64, now: u64 :: CheckedExceeds(base, now, thresholdPct).Some?)
            <==> thresholdPct <= U64_MAX - 98
  {
    if thresholdPct <= U64_MAX - 98 {
      forall base: u64, now: u64 ensures CheckedExceeds(base, now, thresholdPct).Some? {
        Fee.MulMonotone(base, U64_MAX, 100 + thresholdPct);
      }
    } else {
      assert CheckedExceeds(U64_MAX, 0, thresholdPct).None?;
    }
  }

  /** Over a positive baseline the reported change and the verdict agree: a
      reported regression is at least the threshold, anything else at most. */
  lemma ReportMatchesVerdict(base: u64, now: u64, thresholdPct: u64)
    requires base > 0
    ensures Exceeds(base, now, thresholdPct) ==> DeltaPermille(base, now) >= 10 * thresholdPct
    ensures !Exceeds(base, now, thresholdPct) ==> DeltaPermille(base, now) <= 10 * thresholdPct
  {
    var d, t := (now - base) * 1000, 10 * thresholdPct;
    assert t * base == 10 * (base * (100 + thresholdPct)) - 1000 * base;
    if Exceeds(base, now, thresholdPct) {
      Fee.QuotientAtLeast(d, base, t);
    } else if d >= 0 {
      assert d < (t + 1) * base;
      Fee.QuotientBelow(d, base, t + 1);
    } else {
      Fee.QuotientAtLeast(-d, base, 0);
    }
  }

  /** The reported change is the quotient truncated toward zero, in tenths of a
      percent; from nothing it is 0 to nothing and the largest `i128` to anything. */
  lemma DeltaIsTruncated(base: u64, now: u64)
    ensures base == 0 ==> DeltaPermille(base, now) == if now == 0 then 0 else I128_MAX
    ensures base > 0 && now >= base ==>
              0 <= (now - base) * 1000 - DeltaPermille(base, now) * base < base
    ensures base > 0 && now < base ==>
              0 <= DeltaPermille(base, now) * base - (now - base) * 1000 < base
  {
    if base > 0 {
      var d := (now - base) * 1000;
      if d >= 0 {
        QuotientRemainder(d, base);
      } else {
        QuotientRemainder(-d, base);
        assert (-((-d) / base)) * base == -(((-d) / base) * base);
      }
    }
  }

  lemma QuotientRemainder(n: nat, d: nat)
    requires d > 0
    ensures 0 <= n - n / d * d < d
  {
    assert n == n / d * d + n % d;
  }

  // ---- Comparison ----

  /** The two rows a scenario present on both sides is compared on. */
  function Rows(base: Cost, now: Cost): seq<(Metric, u64, u64)> {
    [(CpuInsns, base.cpuInsns, now.cpuInsns), (MemBytes, base.memBytes, now.memBytes)]
  }

  function RowFindings(name: string, rows: seq<(Metric, u64, u64)>, thresholdPct: u64): seq<Finding> {
    if rows == [] then []
    else
      var row := rows[|rows| - 1];
      RowFindings(name, rows[..|rows| - 1], thresholdPct)
      + if Exceeds(row.1, row.2, thresholdPct) then [Regressed(name, row.0, row.1, row.2)] else []
  }

  function ScenarioFindings(base: Costs, measured: Costs, thresholdPct: u64, name: string): seq<Finding>
    requires name in measured
  {
    if name !in base then [MissingBaseline(name)]
    else RowFindings(name, Rows(base[name], measured[name]), thresholdPct)
  }

  function MeasuredFindings(base: Costs, measured: Costs, thresholdPct: u64, names: seq<string>): seq<Finding>
    requires forall i :: 0 <= i < |names| ==> names[i] in measured
  {
    if names == [] then []
    else
      MeasuredFindings(base, measured, thresholdPct, names[..|names| - 1])
      + ScenarioFindings(base, measured, thresholdPct, names[|names| - 1])
  }

  function StaleFindings(measured: Costs, names: seq<string>): seq<Finding> {
    if names == [] then []
    else
      StaleFindings(measured, names[..|names| - 1])
      + if names[|names| - 1] in measured then [] else [StaleBaseline(names[|names| - 1])]
  }

  /** All findings, in the order of the report. */
  ghost function Findings(base: Costs, measured: Costs, thresholdPct: u64): seq<Finding> {
    MeasuredFindings(base, measured, thresholdPct, KeyOrder(measured.Keys))
    + StaleFindings(measured, KeyOrder(base.Keys))
  }

  predicate RowTraps(base: Cost, now: Cost, thresholdPct: u64) {
    || Overflows(base.cpuInsns, now.cpuInsns, thresholdPct)
    || Overflows(base.memBytes, now.memBytes, thresholdPct)
  }

  /** Some comparison the gate makes would trap. */
  ghost predicate Traps(base: Costs, measured: Costs, thresholdPct: u64) {
    exists n :: n in base && n in measured && RowTraps(base[n], measured[n], thresholdPct)
  }

  method CompareRows(name: string, base: Cost, now: Cost, thresholdPct: u64) returns (r: Option<seq<Finding>>)
    ensures r.None? <==> RowTraps(base, now, thresholdPct)
    ensures r.Some? ==> r.value == RowFindings(name, Rows(base, now), thresholdPct)
  {
    var rows := Rows(base, now);
    var findings := [];
    for i := 0 to |rows|
      invariant findings == RowFindings(name, rows[..i], thresholdPct)
      invariant forall j :: 0 <= j < i ==> !Overflows(rows[j].1, rows[j].2, thresholdPct)
    {
      assert rows[..i + 1][..i] == rows[..i];
      var row := rows[i];
      match CheckedExceeds(row.1, row.2, thresholdPct) {
        case None =>
          assert row == rows[0] || row == rows[1];
          return None;
        case Some(above) =>
          if above {
            findings := findings + [Regressed(name, row.0, row.1, row.2)];
          }
      }
    }
    assert rows[..|rows|] == rows;
    assert !Overflows(rows[0].1, rows[0].2, thresholdPct) && !Overflows(rows[1].1, rows[1].2, thresholdPct);
    return Some(findings);
  }

  method CompareMeasured(base: Costs, measured: Costs, thresholdPct: u64, names: seq<string>)
    returns (r: Option<seq<Finding>>)
    requires forall i :: 0 <= i < |names| ==> names[i] in measured
    ensures r.None? <==> exists i :: 0 <= i < |names| && names[i] in base
                                     && RowTraps(base[names[i]], measured[names[i]], thresholdPct)
    ensures r.Some? ==> r.value == MeasuredFindings(base, measured, thresholdPct, names)
  {
    var findings: seq<Finding> := [];
    for i := 0 to |names|
      invariant findings == MeasuredFindings(base, measured, thresholdPct, names[..i])
      invariant forall j :: 0 <= j < i && names[j] in base ==>
                  !RowTraps(base[names[j]], measured[names[j]], thresholdPct)
    {
      assert names[..i + 1][..i] == names[..i];
      if names[i] !in base {
        findings := findings + [MissingBaseline(names[i])];
      } else {
        var rows := CompareRows(names[i], base[names[i]], measured[names[i]], thresholdPct);
        if rows.None? {
          return None;
        }
        findings := findings + rows.value;
      }
    }
    assert names[..|names|] == names;
    return Some(findings);
  }

  /** What the comparison returns: nothing when it traps, else the findings. */
  ghost function Compared(base: Costs, measured: Costs, thresholdPct: u64): Option<seq<Finding>> {
    if Traps(base, measured, thresholdPct) then None else Some(Findings(base, measured, thresholdPct))
  }

  method Compare(base: Costs, measured: Costs, thresholdPct: u64) returns (r: Option<seq<Finding>>)
    ensures r == Compared(base, measured, thresholdPct)
  {
    var names := KeysInOrder(measured.Keys);
    TrapsIff(base, measured, thresholdPct);
    r := CompareMeasured(base, measured, thresholdPct, names);
    if r.Some? {
      var stale := FindStale(base, measured);
      r := Some(r.value + stale);
    }
  }

  lemma TrapsIff(base: Costs, measured: Costs, thresholdPct: u64)
    ensures var names := KeyOrder(measured.Keys);
            && (forall i :: 0 <= i < |names| ==> names[i] in measured)
            && (Traps(base, measured, thresholdPct)
                <==> exists i :: 0 <= i < |names| && names[i] in base
                                 && RowTraps(base[names[i]], measured[names[i]], thresholdPct))
  {
    var names := KeyOrder(measured.Keys);
    if Traps(base, measured, thresholdPct) {
      var n :| n in base && n in measured && RowTraps(base[n], measured[n], thresholdPct);
      assert n in names;
    }
  }

  method FindStale(base: Costs, measured: Costs) returns (findings: seq<Finding>)
    ensures findings == StaleFindings(measured, KeyOrder(base.Keys))
  {
    findings := [];
    var names := KeysInOrder(base.Keys);
    for i := 0 to |names|
      invariant findings == StaleFindings(measured, names[..i])
    {
      StaleSnoc(measured, names, i);
      if names[i] !in measured {
        findings := findings + [StaleBaseline(names[i])];
      }
    }
    assert names[..|names|] == names;
  }

  lemma StaleSnoc(measured: Costs, names: seq<string>, i: nat)
    requires i < |names|
    ensures StaleFindings(measured, names[..i + 1])
         == StaleFindings(measured, names[..i]) + if names[i] in measured then [] else [StaleBaseline(names[i])]
  {
    assert names[..i + 1][..i] == names[..i];
  }

  // ---- Soundness and completeness ----

  function Value(c: Cost, m: Metric): u64 {
    match m
    case CpuInsns => c.cpuInsns
    case MemBytes => c.memBytes
  }

  /** What a finding claims, read off the two tables. */
  predicate Violation(base: Costs, measured: Costs, thresholdPct: u64, f: Finding) {
    match f
    case MissingBaseline(n) => n in measured && n !in base
    case StaleBaseline(n) => n in base && n !in measured
    case Regressed(n, m, b, now) =>
      && n in base && n in measured
      && b == Value(base[n], m) && now == Value(measured[n], m)
      && now * 100 > b * (100 + thresholdPct)
  }

  lemma RowsOf(name: string, base: Cost, now: Cost, thresholdPct: u64)
    ensures RowFindings(name, Rows(base, now), thresholdPct)
         == (if Exceeds(base.cpuInsns, now.cpuInsns, thresholdPct)
             then [Regressed(name, CpuInsns, base.cpuInsns, now.cpuInsns)] else [])
            + (if Exceeds(base.memBytes, now.memBytes, thresholdPct)
               then [Regressed(name, MemBytes, base.memBytes, now.memBytes)] else [])
  {
    var rows := Rows(base, now);
    var first := rows[..1];
    assert first[..0] == [];
    assert RowFindings(name, first, thresholdPct)
        == [] + if Exceeds(base.cpuInsns, now.cpuInsns, thresholdPct)
                then [Regressed(name, CpuInsns, base.cpuInsns, now.cpuInsns)] else [];
  }

  lemma ScenarioFindingIff(base: Costs, measured: Costs, thresholdPct: u64, name: string, f: Finding)
    requires name in measured
    ensures f in ScenarioFindings(base, measured, thresholdPct, name)
            <==> f.scenario == name && !f.StaleBaseline? && Violation(base, measured, thresholdPct, f)
  {
    if name in base {
      RowsOf(name, base[name], measured[name], thresholdPct);
    }
  }

  lemma InConcat<T>(a: seq<T>, b: seq<T>, x: T)
    ensures x in a + b <==> x in a || x in b
  {
  }

  lemma {:induction false} MeasuredFindingIff(base: Costs, measured: Costs, thresholdPct: u64, names: seq<string>,
                                              f: Finding)
    requires forall i :: 0 <= i < |names| ==> names[i] in measured
    ensures f in MeasuredFindings(base, measured, thresholdPct, names)
            <==> f.scenario in names && !f.StaleBaseline? && Violation(base, measured, thresholdPct, f)
  {
    if names != [] {
      var init, name := names[..|names| - 1], names[|names| - 1];
      MeasuredFindingIff(base, measured, thresholdPct, init, f);
      ScenarioFindingIff(base, measured, thresholdPct, name, f);
      InConcat(MeasuredFindings(base, measured, thresholdPct, init),
               ScenarioFindings(base, measured, thresholdPct, name), f);
      InConcat(init, [name], f.scenario);
      assert names == init + [name];
    }
  }

  lemma {:induction false} StaleFindingIff(measured: Costs, names: seq<string>, f: Finding)
    ensures f in StaleFindings(measured, names) <==> f.StaleBaseline? && f.scenario in names && f.scenario !in measured
  {
    if names != [] {
      StaleFindingIff(measured, names[..|names| - 1], f);
    }
  }

  /** The gate reports exactly the violations. */
  lemma FindingIffViolation(base: Costs, measured: Costs, thresholdPct: u64, f: Finding)
    ensures f in Findings(base, measured, thresholdPct) <==> Violation(base, measured, thresholdPct, f)
  {
    MeasuredFindingIff(base, measured, thresholdPct, KeyOrder(measured.Keys), f);
    StaleFindingIff(measured, KeyOrder(base.Keys), f);
  }

  ghost predicate Distinct<T>(s: seq<T>) {
    forall i, j :: 0 <= i < j < |s| ==> s[i] != s[j]
  }

  lemma DistinctConcat<T>(a: seq<T>, b: seq<T>)
    requires Distinct(a) && Distinct(b) && forall x :: x in a ==> x !in b
    ensures Distinct(a + b)
  {
    assert forall i :: 0 <= i < |a| ==> a[i] in a;
    assert forall i :: 0 <= i < |b| ==> b[i] in b;
  }

  lemma {:induction false} MeasuredFindingsDistinct(base: Costs, measured: Costs, thresholdPct: u64, names: seq<string>)
    requires forall i :: 0 <= i < |names| ==> names[i] in measured
    requires Distinct(names)
    ensures Distinct(MeasuredFindings(base, measured, thresholdPct, names))
  {
    if names != [] {
      var init, name := names[..|names| - 1], names[|names| - 1];
      MeasuredFindingsDistinct(base, measured, thresholdPct, init);
      if name in base {
        RowsOf(name, base[name], measured[name], thresholdPct);
      }
      forall f | f in MeasuredFindings(base, measured, thresholdPct, init)
        ensures f !in ScenarioFindings(base, measured, thresholdPct, name)
      {
        MeasuredFindingIff(base, measured, thresholdPct, init, f);
        ScenarioFindingIff(base, measured, thresholdPct, name, f);
      }
      DistinctConcat(MeasuredFindings(base, measured, thresholdPct, init),
                     ScenarioFindings(base, measured, thresholdPct, name));
    }
  }

  lemma {:induction false} StaleFindingsDistinct(measured: Costs, names: seq<string>)
    requires Distinct(names)
    ensures Distinct(StaleFindings(measured, names))
  {
    if names != [] {
      var init, name := names[..|names| - 1], names[|names| - 1];
      StaleFindingsDistinct(measured, init);
      StaleFindingIff(measured, init, StaleBaseline(name));
    }
  }

  lemma KeyOrderDistinct(keys: set<string>)
    ensures Distinct(KeyOrder(keys))
  {
    var ks := KeyOrder(keys);
    forall i, j | 0 <= i < j < |ks| ensures ks[i] != ks[j] {
      KeysDistinct(keys, i, j);
    }
  }

  /** Each violation is reported once. */
  lemma OneFindingPerViolation(base: Costs, measured: Costs, thresholdPct: u64)
    ensures Distinct(Findings(base, measured, thresholdPct))
  {
    var mine, stale := KeyOrder(measured.Keys), KeyOrder(base.Keys);
    KeyOrderDistinct(measured.Keys);
    KeyOrderDistinct(base.Keys);
    MeasuredFindingsDistinct(base, measured, thresholdPct, mine);
    StaleFindingsDistinct(measured, stale);
    forall f | f in MeasuredFindings(base, measured, thresholdPct, mine) ensures f !in StaleFindings(measured, stale) {
      MeasuredFindingIff(base, measured, thresholdPct, mine, f);
      StaleFindingIff(measured, stale, f);
    }
    DistinctConcat(MeasuredFindings(base, measured, thresholdPct, mine), StaleFindings(measured, stale));
  }

  lemma NoFindingsIff(base: Costs, measured: Costs, thresholdPct: u64)
    ensures Findings(base, measured, thresholdPct) == [] <==> forall f :: !Violation(base, measured, thresholdPct, f)
  {
    var fs := Findings(base, measured, thresholdPct);
    if fs == [] {
      forall f ensures !Violation(base, measured, thresholdPct, f) {
        FindingIffViolation(base, measured, thresholdPct, f);
      }
    } else {
      FindingIffViolation(base, measured, thresholdPct, fs[0]);
    }
  }

  /** No metric present on both sides is above the threshold. */
  predicate AllWithin(base: Costs, measured: Costs, thresholdPct: u64) {
    forall n :: n in base && n in measured ==>
      && measured[n].cpuInsns * 100 <= base[n].cpuInsns * (100 + thresholdPct)
      && measured[n].memBytes * 100 <= base[n].memBytes * (100 + thresholdPct)
  }

  lemma NoViolationMeansWithin(base: Costs, measured: Costs, thresholdPct: u64)
    requires forall f :: !Violation(base, measured, thresholdPct, f)
    ensures base.Keys == measured.Keys && AllWithin(base, measured, thresholdPct)
  {
    forall n | n in base ensures n in measured {
      assert !Violation(base, measured, thresholdPct, StaleBaseline(n));
    }
    forall n | n in measured ensures n in base {
      assert !Violation(base, measured, thresholdPct, MissingBaseline(n));
    }
    forall n | n in base && n in measured
      ensures !Exceeds(base[n].cpuInsns, measured[n].cpuInsns, thresholdPct)
      ensures !Exceeds(base[n].memBytes, measured[n].memBytes, thresholdPct)
    {
      assert !Violation(base, measured, thresholdPct, Regressed(n, CpuInsns, base[n].cpuInsns, measured[n].cpuInsns));
      assert !Violation(base, measured, thresholdPct, Regressed(n, MemBytes, base[n].memBytes, measured[n].memBytes));
    }
  }

  /** The gate passes iff both sides list the same scenarios and no metric is
      above the threshold. */
  lemma PassesIff(base: Costs, measured: Costs, thresholdPct: u64)
    ensures Findings(base, measured, thresholdPct) == [] <==>
            base.Keys == measured.Keys && AllWithin(base, measured, thresholdPct)
  {
    NoFindingsIff(base, measured, thresholdPct);
    if Findings(base, measured, thresholdPct) == [] {
      NoViolationMeansWithin(base, measured, thresholdPct);
    }
  }

  // ---- The order of the report ----

  /** Regressions and missing baselines come first, by scenario and within a scenario
      instructions before memory; stale baselines follow, by scenario. */
  ghost predicate Precedes(f: Finding, g: Finding) {
    if f.StaleBaseline? then g.StaleBaseline? && Less(f.scenario, g.scenario)
    else
      || g.StaleBaseline?
      || Less(f.scenario, g.scenario)
      || (f.scenario == g.scenario && f.Regressed? && g.Regressed? && f.metric == CpuInsns && g.metric == MemBytes)
  }

  ghost predicate InReportOrder(fs: seq<Finding>) {
    forall i, j :: 0 <= i < j < |fs| ==> Precedes(fs[i], fs[j])
  }

  lemma OrderConcat(a: seq<Finding>, b: seq<Finding>)
    requires InReportOrder(a) && InReportOrder(b) && forall f, g :: f in a && g in b ==> Precedes(f, g)
    ensures InReportOrder(a + b)
  {
    var all := a + b;
    forall i, j | 0 <= i < j < |all| ensures Precedes(all[i], all[j]) {
      if i < |a| <= j {
        assert all[i] in a && all[j] in b;
      }
    }
  }

  lemma ScenarioInOrder(base: Costs, measured: Costs, thresholdPct: u64, name: string)
    requires name in measured
    ensures InReportOrder(ScenarioFindings(base, measured, thresholdPct, name))
  {
    if name in base {
      RowsOf(name, base[name], measured[name], thresholdPct);
    }
  }

  lemma {:induction false} MeasuredInOrder(base: Costs, measured: Costs, thresholdPct: u64, names: seq<string>)
    requires forall i :: 0 <= i < |names| ==> names[i] in measured
    requires Ascending(names)
    ensures InReportOrder(MeasuredFindings(base, measured, thresholdPct, names))
  {
    if names != [] {
      var init, name := names[..|names| - 1], names[|names| - 1];
      MeasuredInOrder(base, measured, thresholdPct, init);
      ScenarioInOrder(base, measured, thresholdPct, name);
      var a, b := MeasuredFindings(base, measured, thresholdPct, init),
                  ScenarioFindings(base, measured, thresholdPct, name);
      forall f, g | f in a && g in b ensures Precedes(f, g) {
        MeasuredFindingIff(base, measured, thresholdPct, init, f);
        ScenarioFindingIff(base, measured, thresholdPct, name, g);
        var i :| 0 <= i < |init| && init[i] == f.scenario;
        assert Less(names[i], names[|names| - 1]);
      }
      OrderConcat(a, b);
    }
  }

  lemma {:induction false} StaleInOrder(measured: Costs, names: seq<string>)
    requires Ascending(names)
    ensures InReportOrder(StaleFindings(measured, names))
  {
    if names != [] {
      var init, name := names[..|names| - 1], names[|names| - 1];
      StaleInOrder(measured, init);
      var a, b := StaleFindings(measured, init), if name in measured then [] else [StaleBaseline(name)];
      forall f, g | f in a && g in b ensures Precedes(f, g) {
        StaleFindingIff(measured, init, f);
        var i :| 0 <= i < |init| && init[i] == f.scenario;
        assert Less(names[i], names[|names| - 1]);
      }
      OrderConcat(a, b);
    }
  }

  /** The report lists its findings in order. */
  lemma FindingsAreOrdered(base: Costs, measured: Costs, thresholdPct: u64)
    ensures InReportOrder(Findings(base, measured, thresholdPct))
  {
    var mine, stale := KeyOrder(measured.Keys), KeyOrder(base.Keys);
    KeyOrderAscending(measured.Keys);
    KeyOrderAscending(base.Keys);
    MeasuredInOrder(base, measured, thresholdPct, mine);
    StaleInOrder(measured, stale);
    var a, b := MeasuredFindings(base, measured, thresholdPct, mine), StaleFindings(measured, stale);
    forall f, g | f in a && g in b ensures Precedes(f, g) {
      MeasuredFindingIff(base, measured, thresholdPct, mine, f);
      StaleFindingIff(measured, stale, g);
    }
    OrderConcat(a, b);
  }

  // ---- The gate's self-test ----

  /** The table after injecting `spec`, or nothing when the injection aborts: a
      malformed spec, an unknown scenario, or a `u64` overflow. */
  function Injected(costs: Costs, spec: string): Option<Costs> {
    match SplitOnce(spec, ':')
    case None => None
    case Some((name, pctText)) =>
      match ParseU64(pctText)
      case None => None
      case Some(pct) =>
        if name !in costs || costs[name].cpuInsns * pct > U64_MAX
           || costs[name].cpuInsns + costs[name].cpuInsns * pct / 100 > U64_MAX then None
        else Some(costs[name := costs[name].(cpuInsns := costs[name].cpuInsns + costs[name].cpuInsns * pct / 100)])
  }

  class Measurements {
    var costs: Costs

    constructor (costs: Costs)
      ensures this.costs == costs
    {
      this.costs := costs;
    }

    /** Inflates one scenario in place; an abort leaves the table alone. */
    method Inject(spec: string) returns (ok: bool)
      modifies this
      ensures ok == Injected(old(costs), spec).Some?
      ensures costs == if ok then Injected(old(costs), spec).value else old(costs)
    {
      var parts := SplitOnce(spec, ':');
      if parts.None? {
        return false;
      }
      var name, pct := parts.value.0, ParseU64(parts.value.1);
      if pct.None? || name !in costs {
        return false;
      }
      var c := costs[name];
      var scaled := c.cpuInsns * pct.value;
      if scaled > U64_MAX {
        return false;
      }
      var raised := c.cpuInsns + scaled / 100;
      if raised > U64_MAX {
        return false;
      }
      costs := costs[name := c.(cpuInsns := raised)];
      return true;
    }
  }

  lemma {:induction false} OnlyTheInjected(costs: Costs, costs': Costs, thresholdPct: u64, names: seq<string>,
                                           name: string)
    requires name in costs && name in costs'
    requires costs' == costs[name := costs[name].(cpuInsns := costs'[name].cpuInsns)]
    requires forall i :: 0 <= i < |names| ==> names[i] in costs
    requires Distinct(names)
    ensures MeasuredFindings(costs, costs', thresholdPct, names)
         == if name in names && Exceeds(costs[name].cpuInsns, costs'[name].cpuInsns, thresholdPct)
            then [Regressed(name, CpuInsns, costs[name].cpuInsns, costs'[name].cpuInsns)] else []
  {
    if names != [] {
      var init, n := names[..|names| - 1], names[|names| - 1];
      OnlyTheInjected(costs, costs', thresholdPct, init, name);
      RowsOf(n, costs[n], costs'[n], thresholdPct);
      NoChangePasses(costs[n].cpuInsns, thresholdPct);
      NoChangePasses(costs[n].memBytes, thresholdPct);
    }
  }

  lemma NoChangePasses(v: u64, thresholdPct: u64)
    ensures !Exceeds(v, v, thresholdPct)
  {
    Fee.MulMonotone(100, 100 + thresholdPct, v);
  }

  lemma {:induction false} NothingIsStale(measured: Costs, names: seq<string>)
    requires forall i :: 0 <= i < |names| ==> names[i] in measured
    ensures StaleFindings(measured, names) == []
  {
    if names != [] {
      NothingIsStale(measured, names[..|names| - 1]);
    }
  }

  lemma InjectedIs(costs: Costs, spec: string, name: string, pctText: string, pct: u64)
    requires SplitOnce(spec, ':') == Some((name, pctText)) && ParseU64(pctText) == Some(pct)
    requires Injected(costs, spec).Some?
    ensures name in costs && costs[name].cpuInsns + costs[name].cpuInsns * pct / 100 <= U64_MAX
    ensures Injected(costs, spec).value
         == costs[name := costs[name].(cpuInsns := costs[name].cpuInsns + costs[name].cpuInsns * pct / 100)]
  {
  }

  /** A spec `name:pct` takes effect iff the scenario exists and neither the product
      nor the sum overflows a `u64`; it then raises that scenario's instructions by the
      rounded-down percentage and nothing else. A spec without a colon never does. */
  lemma InjectsIff(costs: Costs, name: string, pctText: string)
    requires ':' !in name
    ensures var injected := Injected(costs, name + [':'] + pctText);
            match ParseU64(pctText)
            case None => injected.None?
            case Some(pct) =>
              if name in costs && costs[name].cpuInsns * pct <= U64_MAX
                 && costs[name].cpuInsns + costs[name].cpuInsns * pct / 100 <= U64_MAX
              then injected == Some(costs[name := Cost(costs[name].cpuInsns + costs[name].cpuInsns * pct / 100,
                                                       costs[name].memBytes)])
              else injected.None?
  {
    SplitAtFirst(name, ':', pctText);
  }

  lemma NoColonNoInjection(costs: Costs, spec: string)
    requires ':' !in spec
    ensures Injected(costs, spec).None?
  {
    NoSplit(spec, ':');
  }

  lemma InjectedFindings(costs: Costs, raised: u64, thresholdPct: u64, name: string)
    requires name in costs
    ensures Findings(costs, costs[name := costs[name].(cpuInsns := raised)], thresholdPct)
         == if Exceeds(costs[name].cpuInsns, raised, thresholdPct)
            then [Regressed(name, CpuInsns, costs[name].cpuInsns, raised)] else []
  {
    var costs' := costs[name := costs[name].(cpuInsns := raised)];
    assert costs'.Keys == costs.Keys;
    KeyOrderDistinct(costs.Keys);
    OnlyTheInjected(costs, costs', thresholdPct, KeyOrder(costs.Keys), name);
    NothingIsStale(costs', KeyOrder(costs.Keys));
  }

  lemma RaisedExceedsIff(cpu: u64, pct: u64, thresholdPct: u64)
    requires cpu + cpu * pct / 100 <= U64_MAX
    ensures Exceeds(cpu, cpu + cpu * pct / 100, thresholdPct) <==> cpu * pct / 100 * 100 > cpu * thresholdPct
    ensures pct <= thresholdPct ==> !Exceeds(cpu, cpu + cpu * pct / 100, thresholdPct)
    ensures cpu * (pct - thresholdPct) >= 100 ==> Exceeds(cpu, cpu + cpu * pct / 100, thresholdPct)
  {
    assert cpu * (100 + thresholdPct) == cpu * 100 + cpu * thresholdPct;
    assert cpu * (pct - thresholdPct) == cpu * pct - cpu * thresholdPct;
    if pct <= thresholdPct {
      Fee.MulMonotone(pct, thresholdPct, cpu);
    }
  }

  /** The self-test is not vacuous. With measurements equal to the baseline,
      injecting `pct` percent fires the gate iff the rounded-down increase is above
      the threshold, and then with the one finding that names it; for thresholds up
      to `u64::MAX - 98` the comparison does get to report it. */
  lemma SelfTest(costs: Costs, costs': Costs, spec: string, name: string, pctText: string, pct: u64,
                 thresholdPct: u64)
    requires SplitOnce(spec, ':') == Some((name, pctText)) && ParseU64(pctText) == Some(pct)
    requires Injected(costs, spec) == Some(costs')
    ensures name in costs && name in costs'
    ensures Findings(costs, costs', thresholdPct)
         == if costs[name].cpuInsns * pct / 100 * 100 > costs[name].cpuInsns * thresholdPct
            then [Regressed(name, CpuInsns, costs[name].cpuInsns, costs'[name].cpuInsns)] else []
    ensures pct <= thresholdPct ==> Findings(costs, costs', thresholdPct) == []
    ensures costs[name].cpuInsns * (pct - thresholdPct) >= 100 ==>
              Findings(costs, costs', thresholdPct)
              == [Regressed(name, CpuInsns, costs[name].cpuInsns, costs'[name].cpuInsns)]
    ensures thresholdPct <= U64_MAX - 98 ==>
              Compared(costs, costs', thresholdPct) == Some(Findings(costs, costs', thresholdPct))
  {
    InjectedIs(costs, spec, name, pctText, pct);
    var cpu := costs[name].cpuInsns;
    var raised: u64 := costs'[name].cpuInsns;
    assert raised == cpu + cpu * pct / 100;
    InjectedFindings(costs, raised, thresholdPct, name);
    RaisedExceedsIff(cpu, pct, thresholdPct);
    if thresholdPct <= U64_MAX - 98 {
      SmallThresholdsNeverTrap(costs, costs', thresholdPct);
    }
  }

  lemma SmallThresholdsNeverTrap(base: Costs, measured: Costs, thresholdPct: u64)
    requires thresholdPct <= U64_MAX - 98
    ensures !Traps(base, measured, thresholdPct)
  {
    NeverTrapsIff(thresholdPct);
    forall n | n in base && n in measured ensures !RowTraps(base[n], measured[n], thresholdPct) {
      assert CheckedExceeds(base[n].cpuInsns, measured[n].cpuInsns, thresholdPct).Some?;
      assert CheckedExceeds(base[n].memBytes, measured[n].memBytes, thresholdPct).Some?;
    }
  }
}
