/** One evaluation of either copy, step by step, and the activation of the ranked chains. */
module ScoreRun {
  import opened Wrappers
  import opened Sorting
  import opened Scoring
  import opened Ranking
  import opened RankingLaws

  const METRICS: seq<Metric> := [Fee, Latency, Reliability, Liquidity]

  ghost function Position(k: Metric): (i: nat)
    ensures i < |METRICS| && METRICS[i] == k
  {
    match k
    case Fee => 0
    case Latency => 1
    case Reliability => 2
    case Liquidity => 3
  }

  // ----- Completed metrics -----

  datatype Completed = Completed(chain: string, raws: Profile<real>)

  lemma {:induction false} FirstRowAppend(rows: seq<MetricRow>, row: MetricRow, chain: string)
    ensures FirstRow(rows + [row], chain)
            == if FirstRow(rows, chain).Some? then FirstRow(rows, chain) else if row.chain == chain
                then Some(row) else None
  {
    if rows == [] {
      assert FirstRow([row][1..], chain) == None;
    } else {
      assert (rows + [row])[1..] == rows[1..] + [row];
      FirstRowAppend(rows[1..], row, chain);
    }
  }

  ghost predicate FirstRows(rows: seq<MetricRow>, byChain: map<string, MetricRow>) {
    forall c :: (if c in byChain then Some(byChain[c]) else None) == FirstRow(rows, c)
  }

  method IndexRows(rows: seq<MetricRow>) returns (byChain: map<string, MetricRow>)
    ensures FirstRows(rows, byChain)
  {
    byChain := map[];
    for i := 0 to |rows|
      invariant FirstRows(rows[..i], byChain)
    {
      forall c ensures FirstRow(rows[..i + 1], c) == if FirstRow(rows[..i], c).Some? then FirstRow(rows[..i], c)
                                                    else if rows[i].chain == c then Some(rows[i]) else None {
        assert rows[..i + 1] == rows[..i] + [rows[i]];
        FirstRowAppend(rows[..i], rows[i], c);
      }
      if rows[i].chain !in byChain {
        byChain := byChain[rows[i].chain := rows[i]];
      }
    }
    assert rows[..|rows|] == rows;
  }

  method CompleteRow(scenario: Scenario, row: Option<MetricRow>, seen: set<Metric>)
    returns (raws: Profile<real>, missing: set<Metric>)
    ensures raws == RawProfile(row, scenario)
    ensures forall k: Metric :: k in missing <==> k in seen || !Reports(row, k)
  {
    raws := Fallbacks(scenario);
    missing := seen;
    for m := 0 to |METRICS|
      invariant forall k: Metric :: raws.Get(k) == if Position(k) < m
              then RawValue(row, scenario, k) else Fallbacks(scenario).Get(k)
      invariant forall k: Metric :: k in missing <==> k in seen || (Position(k) < m && !Reports(row, k))
    {
      var k := METRICS[m];
      if Reports(row, k) {
        raws := raws.Set(k, row.value.values[k]);
      } else {
        missing := missing + {k};
      }
    }
    assert raws.Get(Fee) == RawValue(row, scenario, Fee) && raws.Get(Latency) == RawValue(row, scenario, Latency);
    assert raws.Get(Reliability) == RawValue(row, scenario, Reliability)
        && raws.Get(Liquidity) == RawValue(row, scenario, Liquidity);
  }

  ghost predicate SomeLacks(rows: seq<MetricRow>, chains: seq<string>, k: Metric) {
    exists c | c in chains :: !Reports(FirstRow(rows, c), k)
  }

  lemma {:induction false} LacksAppend(rows: seq<MetricRow>, chains: seq<string>, chain: string, k: Metric)
    ensures SomeLacks(rows, chains + [chain], k) <==> SomeLacks(rows, chains, k) || !Reports(FirstRow(rows, chain), k)
  {
    assert chain in chains + [chain];
    if SomeLacks(rows, chains, k) {
      var c :| c in chains && !Reports(FirstRow(rows, c), k);
      assert c in chains + [chain];
    }
  }

  /** Rows by first occurrence, fallbacks for what is missing, and the metrics that were. */
  method BuildCompletedMetrics(f: Field) returns (completed: seq<Completed>, missing: set<Metric>)
    ensures |completed| == |f.chains|
    ensures forall i | 0 <= i < |f.chains| :: completed[i] == Completed(f.chains[i], Raws(f, f.chains[i]))
    ensures forall k: Metric :: k in missing <==> SomeLacks(f.rows, f.chains, k)
  {
    var byChain := IndexRows(f.rows);
    completed, missing := [], {};
    for i := 0 to |f.chains|
      invariant |completed| == i
      invariant forall j | 0 <= j < i :: completed[j] == Completed(f.chains[j], Raws(f, f.chains[j]))
      invariant forall k: Metric :: k in missing <==> SomeLacks(f.rows, f.chains[..i], k)
    {
      var chain := f.chains[i];
      var row := if chain in byChain then Some(byChain[chain]) else None;
      assert row == FirstRow(f.rows, chain);
      var raws: Profile<real>;
      raws, missing := CompleteRow(f.scenario, row, missing);
      completed := completed + [Completed(chain, raws)];
      forall k: Metric ensures SomeLacks(f.rows, f.chains[..i + 1], k)
              <==> SomeLacks(f.rows, f.chains[..i], k) || !Reports(row, k) {
        assert f.chains[..i + 1] == f.chains[..i] + [chain];
        LacksAppend(f.rows, f.chains[..i], chain, k);
      }
    }
    assert f.chains[..|f.chains|] == f.chains;
  }

  ghost predicate FirstFor(rows: seq<MetricRow>, chain: string, i: nat) {
    i < |rows| && rows[i].chain == chain && forall j | 0 <= j < i :: rows[j].chain != chain
  }

  lemma {:induction false} FirstRowIsFirst(rows: seq<MetricRow>, chain: string)
    ensures FirstRow(rows, chain).None? <==> forall j | 0 <= j < |rows| :: rows[j].chain != chain
    ensures forall i: nat | FirstFor(rows, chain, i) :: FirstRow(rows, chain) == Some(rows[i])
  {
    if rows != [] {
      FirstRowIsFirst(rows[1..], chain);
      assert forall j | 1 <= j < |rows| :: rows[j] == rows[1..][j - 1];
      if rows[0].chain != chain {
        forall i: nat | FirstFor(rows, chain, i) ensures FirstRow(rows, chain) == Some(rows[i]) {
          assert FirstFor(rows[1..], chain, i - 1);
        }
      }
    }
  }

  /**
    A run works on the values of the first row of a chain, and on the scenario's fallbacks for
    those that row does not report; a chain without a row gets the fallbacks.
   */
  lemma {:induction false} MissingMetricsFilled(f: Field, chain: string, i: nat, k: Metric)
    ensures var usual := if f.scenario == Normal then Profile(35.0, 220.0, 0.965, 0.75)
                         else Profile(85.0, 480.0, 0.9, 0.55);
            && (FirstFor(f.rows, chain, i)
                ==> Raws(f, chain).Get(k) == if k in f.rows[i].values then f.rows[i].values[k] else usual.Get(k))
            && ((forall j | 0 <= j < |f.rows| :: f.rows[j].chain != chain) ==> Raws(f, chain) == usual)
  {
    FirstRowIsFirst(f.rows, chain);
  }

  // ----- The engine -----

  function Kept(chains: seq<string>, gone: set<string>): (r: seq<string>)
    ensures forall c :: c in r <==> c in chains && c !in gone
  {
    if chains == [] then []
    else (if chains[0] in gone then [] else [chains[0]]) + Kept(chains[1..], gone)
  }

  function KeptRows(rows: seq<MetricRow>, gone: set<string>): seq<MetricRow> {
    if rows == [] then []
    else (if rows[0].chain in gone then [] else [rows[0]]) + KeptRows(rows[1..], gone)
  }

  /** What a run scores once decommissioned chains are filtered out. */
  function RunField(scenario: Scenario, chains: seq<string>, gone: set<string>, rows: seq<MetricRow>): Field {
    Field(Kept(chains, gone), KeptRows(rows, gone), scenario, ENGINE)
  }

  datatype ScoreResult = ScoreResult(ranked: seq<Scored>, recommended: string, confidence: real)

  method MetricBounds(completed: seq<Completed>, k: Metric) returns (b: Bounds)
    requires completed != []
    ensures forall f: Field | Completes(f, completed) :: b == BoundsOf(f, k)
  {
    var values := seq(|completed|, i requires 0 <= i < |completed| => completed[i].raws.Get(k));
    b := Bounds(MinOf(values), MaxOf(values));
    forall f: Field | Completes(f, completed) ensures b == BoundsOf(f, k) {
      assert values == Values(f, k);
    }
  }

  ghost predicate Completes(f: Field, completed: seq<Completed>) {
    |completed| == |f.chains| && forall i | 0 <= i < |completed| ::
        completed[i] == Completed(f.chains[i], Raws(f, f.chains[i]))
  }

  method ScoreRow(bs: Profile<Bounds>, row: Completed) returns (e: Scored)
    ensures e == ScoredBy(ENGINE, bs, row.chain, row.raws)
  {
    var components: Profile<real> := Profile(0.0, 0.0, 0.0, 0.0);
    for m := 0 to |METRICS|
      invariant forall k: Metric | Position(k) < m :: components.Get(k) == Component(bs.Get(k), row.raws.Get(k), k)
    {
      var k := METRICS[m];
      var b := bs.Get(k);
      var range := b.max - b.min;
      var normalized := 1.0;
      if Abs(range) > EPSILON {
        normalized := (row.raws.Get(k) - b.min) / range;
        if LowerBetter(k) {
          normalized := 1.0 - normalized;
        }
      }
      components := components.Set(k, Weighted(normalized, k));
    }
    AllComputed(bs, row.raws, components);
    e := Scored(row.chain,
        Round(components.fee + components.latency + components.reliability + components.liquidity), components,
        row.raws);
  }

  lemma {:induction false} AllComputed(bs: Profile<Bounds>, raws: Profile<real>, c: Profile<real>)
    requires forall k: Metric :: c.Get(k) == Component(bs.Get(k), raws.Get(k), k)
    ensures c == Components(bs, raws)
  {
    assert c.Get(Fee) == Component(bs.Get(Fee), raws.Get(Fee), Fee);
    assert c.Get(Latency) == Component(bs.Get(Latency), raws.Get(Latency), Latency);
    assert c.Get(Reliability) == Component(bs.Get(Reliability), raws.Get(Reliability), Reliability);
    assert c.Get(Liquidity) == Component(bs.Get(Liquidity), raws.Get(Liquidity), Liquidity);
  }

  /** `scoreRunV1`: no scoreable chain is an error; otherwise the ranking and its first chain. */
  method ScoreRunV1(locale: Locale, scenario: Scenario, chains: seq<string>, gone: set<string>, rows: seq<MetricRow>)
    returns (r: Option<ScoreResult>)
    ensures r.None? <==> forall c | c in chains :: c in gone
    ensures var f := RunField(scenario, chains, gone, rows);
            r.Some? ==> f.chains != [] && r.value.ranked == RankedBy(locale, f)
                        && r.value.recommended == RankedBy(locale, f)[0].chain
                            && r.value.confidence == RankedBy(locale, f)[0].score
  {
    var f := RunField(scenario, chains, gone, rows);
    if f.chains == [] {
      forall c | c in chains ensures c in gone {
        assert c !in f.chains;
      }
      return None;
    }
    assert f.chains[0] in chains && f.chains[0] !in gone;
    var completed, _ := BuildCompletedMetrics(f);
    var fee := MetricBounds(completed, Fee);
    var latency := MetricBounds(completed, Latency);
    var reliability := MetricBounds(completed, Reliability);
    var liquidity := MetricBounds(completed, Liquidity);
    var ranked := ScoreRows(Profile(fee, latency, reliability, liquidity), completed);
    ScoredRowsAreEntries(f, completed, ranked);
    ranked := SortBy(By(locale, EngineKey), ranked);
    r := Some(ScoreResult(ranked, ranked[0].chain, ranked[0].score));
  }

  ghost predicate ScoredRows(rule: Rule, bs: Profile<Bounds>, completed: seq<Completed>, entries: seq<Scored>) {
    |entries| == |completed|
    && forall i | 0 <= i < |entries| :: entries[i] == ScoredBy(rule, bs, completed[i].chain, completed[i].raws)
  }

  method ScoreRows(bs: Profile<Bounds>, completed: seq<Completed>) returns (entries: seq<Scored>)
    ensures ScoredRows(ENGINE, bs, completed, entries)
  {
    entries := [];
    for i := 0 to |completed|
      invariant ScoredRows(ENGINE, bs, completed[..i], entries)
    {
      var e := ScoreRow(bs, completed[i]);
      entries := entries + [e];
    }
    assert completed[..|completed|] == completed;
  }

  lemma {:induction false} ScoredRowsAreEntries(f: Field, completed: seq<Completed>, entries: seq<Scored>)
    requires f.chains != [] && Completes(f, completed) && ScoredRows(f.rule, AllBounds(f), completed, entries)
    ensures entries == Entries(f)
  {
    forall i | 0 <= i < |entries| ensures entries[i] == Entries(f)[i] {
      assert completed[i] == Completed(f.chains[i], Raws(f, f.chains[i]));
    }
  }

  // ----- Decommissioned chains leave no trace -----

  lemma {:induction false} FirstRowKept(rows: seq<MetricRow>, gone: set<string>, chain: string)
    requires chain !in gone
    ensures FirstRow(KeptRows(rows, gone), chain) == FirstRow(rows, chain)
  {
    if rows != [] {
      FirstRowKept(rows[1..], gone, chain);
      var rest := KeptRows(rows[1..], gone);
      assert ([rows[0]] + rest)[1..] == rest && [] + rest == rest;
    }
  }

  lemma {:induction false} KeptAgain(chains: seq<string>)
    ensures Kept(chains, {}) == chains
  {
    if chains != [] {
      KeptAgain(chains[1..]);
    }
  }

  lemma {:induction false} RowsKeptAgain(rows: seq<MetricRow>)
    ensures KeptRows(rows, {}) == rows
  {
    if rows != [] {
      RowsKeptAgain(rows[1..]);
    }
  }

  ghost predicate SameReports(chains: seq<string>, rows: seq<MetricRow>, others: seq<MetricRow>) {
    forall c | c in chains :: FirstRow(rows, c) == FirstRow(others, c)
  }

  lemma {:induction false} SameEntriesFromReports(f: Field, g: Field)
    requires f.chains == g.chains != [] && f.scenario == g.scenario && f.rule == g.rule
            && SameReports(f.chains, f.rows, g.rows)
    ensures Entries(f) == Entries(g)
  {
    forall k: Metric ensures Values(f, k) == Values(g, k) {
      forall i | 0 <= i < |f.chains| ensures Raws(f, f.chains[i]) == Raws(g, f.chains[i]) {
        assert f.chains[i] in f.chains;
      }
    }
    assert AllBounds(f) == AllBounds(g);
    forall i | 0 <= i < |f.chains| ensures Entries(f)[i] == Entries(g)[i] {
      assert f.chains[i] in f.chains;
    }
  }

  /** Decommissioned chains leave no trace: the run ranks as if they and their rows never came. */
  lemma {:induction false} DecommissionedLeaveNoTrace(
      locale: Locale, scenario: Scenario, chains: seq<string>, gone: set<string>, rows: seq<MetricRow>)
    ensures var f, g := RunField(scenario, chains, gone, rows), RunField(scenario, Kept(chains, gone), {}, rows);
            g.chains == f.chains && (f.chains != [] ==> RankedBy(locale, f) == RankedBy(locale, g))
  {
    var f, g := RunField(scenario, chains, gone, rows), RunField(scenario, Kept(chains, gone), {}, rows);
    KeptAgain(Kept(chains, gone));
    RowsKeptAgain(rows);
    if f.chains != [] {
      forall c | c in f.chains ensures FirstRow(f.rows, c) == FirstRow(g.rows, c) {
        FirstRowKept(rows, gone, c);
      }
      SameEntriesFromReports(f, g);
    }
  }

  // ----- The inlined copy -----

  ghost function SumOf(c: Profile<real>): real {
    c.fee + c.latency + c.reliability + c.liquidity
  }

  lemma {:induction false} SumAfterSet(c: Profile<real>, k: Metric, x: real)
    requires c.Get(k) == 0.0
    ensures SumOf(c.Set(k, x)) == SumOf(c) + x
  {
  }

  method ScoreRowInline(bs: Profile<Bounds>, row: Completed) returns (e: Scored)
    ensures e == ScoredBy(INLINE, bs, row.chain, row.raws)
  {
    var components: Profile<real> := Profile(0.0, 0.0, 0.0, 0.0);
    var total := 0.0;
    for m := 0 to |METRICS|
      invariant forall k: Metric | Position(k) < m ::
              components.Get(k) == ComponentInline(bs.Get(k), row.raws.Get(k), k)
      invariant forall k: Metric | m <= Position(k) :: components.Get(k) == 0.0
      invariant total == SumOf(components)
    {
      var k := METRICS[m];
      var b := bs.Get(k);
      var range := b.max - b.min;
      var normalized;
      if range < EPSILON {
        normalized := 1.0;
      } else {
        normalized := if LowerBetter(k) then (b.max - row.raws.Get(k)) / range else (row.raws.Get(k) - b.min) / range;
      }
      var weighted := Weighted(normalized, k);
      SumAfterSet(components, k, weighted);
      components := components.Set(k, weighted);
      total := total + weighted;
    }
    AllComputedInline(bs, row.raws, components);
    e := Scored(row.chain, Round(total), components, row.raws);
  }

  lemma {:induction false} AllComputedInline(bs: Profile<Bounds>, raws: Profile<real>, c: Profile<real>)
    requires forall k: Metric :: c.Get(k) == ComponentInline(bs.Get(k), raws.Get(k), k)
    ensures c == ComponentsInline(bs, raws)
  {
    assert c.Get(Fee) == ComponentInline(bs.Get(Fee), raws.Get(Fee), Fee);
    assert c.Get(Latency) == ComponentInline(bs.Get(Latency), raws.Get(Latency), Latency);
    assert c.Get(Reliability) == ComponentInline(bs.Get(Reliability), raws.Get(Reliability), Reliability);
    assert c.Get(Liquidity) == ComponentInline(bs.Get(Liquidity), raws.Get(Liquidity), Liquidity);
  }

  method ScoreRowsInline(bs: Profile<Bounds>, completed: seq<Completed>) returns (entries: seq<Scored>)
    ensures ScoredRows(INLINE, bs, completed, entries)
  {
    entries := [];
    for i := 0 to |completed|
      invariant ScoredRows(INLINE, bs, completed[..i], entries)
    {
      var e := ScoreRowInline(bs, completed[i]);
      entries := entries + [e];
    }
    assert completed[..|completed|] == completed;
  }

  function CompletedRows(f: Field): (r: seq<Completed>)
    ensures Completes(f, r)
  {
    seq(|f.chains|, i requires 0 <= i < |f.chains| => Completed(f.chains[i], Raws(f, f.chains[i])))
  }

  method ScoreField(f: Field) returns (entries: seq<Scored>)
    requires f.chains != [] && f.rule == INLINE
    ensures entries == Entries(f)
  {
    entries := ScoreRowsInline(AllBounds(f), CompletedRows(f));
    ScoredRowsAreEntries(f, CompletedRows(f), entries);
  }

  /** `scoreChains`: the copy ranks an empty list of chains as empty. */
  method ScoreChains(locale: Locale, scenario: Scenario, chains: seq<string>, rows: seq<MetricRow>)
      returns (ranked: seq<Scored>)
    ensures ranked == if chains == [] then [] else RankedInline(locale, Field(chains, rows, scenario, INLINE))
  {
    if chains == [] {
      return [];
    }
    ranked := ScoreField(Field(chains, rows, scenario, INLINE));
    ranked := SortBy(By(locale, InlineKey), ranked);
  }

  // ----- Activation -----

  datatype Activation = Activation(threshold: real, active: seq<string>, inactive: seq<string>)

  function Names(es: seq<Scored>): (r: seq<string>)
    ensures |r| == |es|
    ensures forall i | 0 <= i < |r| :: r[i] == es[i].chain
  {
    seq(|es|, i requires 0 <= i < |es| => es[i].chain)
  }

  function Survivors(es: seq<Scored>, gone: set<string>): seq<Scored> {
    if es == [] then []
    else Survivors(es[..|es| - 1], gone) + (if es[|es| - 1].chain in gone then [] else [es[|es| - 1]])
  }

  function Passing(es: seq<Scored>, threshold: real, pass: bool): seq<Scored> {
    if es == [] then []
    else Passing(es[..|es| - 1], threshold, pass) + (if (es[|es| - 1].score >= threshold) == pass
        then [es[|es| - 1]] else [])
  }

  lemma {:induction false} SurvivorsAppend(es: seq<Scored>, e: Scored, gone: set<string>)
    ensures Survivors(es + [e], gone) == if e.chain in gone then Survivors(es, gone) else Survivors(es, gone) + [e]
  {
    assert (es + [e])[..|es|] == es;
  }

  lemma {:induction false} PassingAppend(es: seq<Scored>, e: Scored, threshold: real, pass: bool)
    ensures Passing(es + [e], threshold, pass)
            == if (e.score >= threshold) == pass then Passing(es, threshold, pass) + [e]
                else Passing(es, threshold, pass)
  {
    assert (es + [e])[..|es|] == es;
  }

  lemma {:induction false} NamesAppend(es: seq<Scored>, e: Scored)
    ensures Names(es + [e]) == Names(es) + [e.chain]
  {
  }

  method ClassifyActivationByThreshold(threshold: real, ranked: seq<Scored>, gone: set<string>)
      returns (r: Option<Activation>)
    ensures r.None? <==> threshold < 0.0 || threshold > 1.0
    ensures r.Some? ==> r.value == Activation(threshold, Names(Passing(Survivors(ranked, gone), threshold, true)),
                                             Names(Passing(Survivors(ranked, gone), threshold, false)))
  {
    if threshold < 0.0 || threshold > 1.0 {
      return None;
    }
    var active: seq<string>, inactive: seq<string> := [], [];
    for i := 0 to |ranked|
      invariant active == Names(Passing(Survivors(ranked[..i], gone), threshold, true))
      invariant inactive == Names(Passing(Survivors(ranked[..i], gone), threshold, false))
    {
      var e := ranked[i];
      ghost var before := Survivors(ranked[..i], gone);
      assert ranked[..i + 1] == ranked[..i] + [e];
      SurvivorsAppend(ranked[..i], e, gone);
      if e.chain in gone {
        continue;
      }
      PassingAppend(before, e, threshold, true);
      PassingAppend(before, e, threshold, false);
      if e.score >= threshold {
        NamesAppend(Passing(before, threshold, true), e);
        active := active + [e.chain];
      } else {
        NamesAppend(Passing(before, threshold, false), e);
        inactive := inactive + [e.chain];
      }
    }
    assert ranked[..|ranked|] == ranked;
    r := Some(Activation(threshold, active, inactive));
  }

  /** The copy checks no threshold and knows no decommissioned chains. */
  method ClassifyActivation(threshold: real, ranked: seq<Scored>) returns (active: seq<string>, inactive: seq<string>)
    ensures active == Names(Passing(ranked, threshold, true))
    ensures inactive == Names(Passing(ranked, threshold, false))
  {
    active, inactive := [], [];
    for i := 0 to |ranked|
      invariant active == Names(Passing(ranked[..i], threshold, true))
      invariant inactive == Names(Passing(ranked[..i], threshold, false))
    {
      var e := ranked[i];
      assert ranked[..i + 1] == ranked[..i] + [e];
      PassingAppend(ranked[..i], e, threshold, true);
      PassingAppend(ranked[..i], e, threshold, false);
      if e.score >= threshold {
        NamesAppend(Passing(ranked[..i], threshold, true), e);
        active := active + [e.chain];
      } else {
        NamesAppend(Passing(ranked[..i], threshold, false), e);
        inactive := inactive + [e.chain];
      }
    }
    assert ranked[..|ranked|] == ranked;
  }

  /** The first `n` entries reach the threshold and no other does. */
  ghost predicate CutAt(es: seq<Scored>, threshold: real, n: nat) {
    n <= |es| && forall i | 0 <= i < |es| :: es[i].score >= threshold <==> i < n
  }

  lemma {:induction false} CutExtends(es: seq<Scored>, e: Scored, threshold: real, n: nat)
    requires ScoresFall(es + [e]) && CutAt(es, threshold, n)
    ensures if e.score >= threshold then n == |es| && CutAt(es + [e], threshold, n + 1)
            else CutAt(es + [e], threshold, n)
  {
    assert n < |es| ==> (es + [e])[n].score >= (es + [e])[|es|].score;
  }

  lemma {:induction false} PrefixFalls(es: seq<Scored>, e: Scored)
    requires ScoresFall(es + [e])
    ensures ScoresFall(es)
  {
    forall i, j | 0 <= i < j < |es| ensures es[i].score >= es[j].score {
      assert (es + [e])[i].score >= (es + [e])[j].score;
    }
  }

  /** On falling scores the passing chains are a prefix and the others the rest. */
  lemma {:induction false} PassingIsPrefix(es: seq<Scored>, threshold: real)
    requires ScoresFall(es)
    ensures var n := |Passing(es, threshold, true)|;
            CutAt(es, threshold, n) && Passing(es, threshold, true) == es[..n]
                && Passing(es, threshold, false) == es[n..]
  {
    if es != [] {
      var front, e := es[..|es| - 1], es[|es| - 1];
      assert es == front + [e];
      PrefixFalls(front, e);
      PassingIsPrefix(front, threshold);
      var n := |Passing(front, threshold, true)|;
      CutExtends(front, e, threshold, n);
      PassingAppend(front, e, threshold, true);
      PassingAppend(front, e, threshold, false);
      SplitExtends(front, e, n);
    }
  }

  lemma {:induction false} SplitExtends(es: seq<Scored>, e: Scored, n: nat)
    requires n <= |es|
    ensures (es + [e])[..n] == es[..n] && (es + [e])[n..] == es[n..] + [e]
    ensures n == |es| ==> (es + [e])[..n + 1] == es[..n] + [e] && (es + [e])[n + 1..] == es[n..] == []
  {
  }

  lemma {:induction false} SurvivorsMembers(es: seq<Scored>, gone: set<string>)
    ensures forall e :: e in Survivors(es, gone) <==> e in es && e.chain !in gone
  {
    if es != [] {
      SurvivorsMembers(es[..|es| - 1], gone);
      assert es == es[..|es| - 1] + [es[|es| - 1]];
    }
  }

  lemma {:induction false} SurvivorsFall(es: seq<Scored>, gone: set<string>)
    requires ScoresFall(es)
    ensures ScoresFall(Survivors(es, gone))
  {
    if es != [] {
      var last := |es| - 1;
      assert es == es[..last] + [es[last]];
      SurvivorsAppend(es[..last], es[last], gone);
      SurvivorsFall(es[..last], gone);
      SurvivorsMembers(es[..last], gone);
      var s := Survivors(es[..last], gone);
      forall i | 0 <= i < |s| ensures s[i].score >= es[last].score {
        assert s[i] in es[..last];
        var k :| 0 <= k < last && es[k] == s[i];
      }
    }
  }

  /**
    After every run, near ties and repeated chains included, the active chains are a prefix of
    the surviving ranking: exactly those that reach the threshold, with every inactive chain
    behind them.
   */
  lemma {:induction false} ActiveChainsArePrefix(locale: Locale, f: Field, gone: set<string>, threshold: real)
    requires f.chains != []
    ensures var es := Survivors(RankedBy(locale, f), gone);
            var n := |Passing(es, threshold, true)|;
            CutAt(es, threshold, n) && Passing(es, threshold, true) == es[..n]
                && Passing(es, threshold, false) == es[n..]
  {
    EngineFalls(locale, f);
    SurvivorsFall(RankedBy(locale, f), gone);
    PassingIsPrefix(Survivors(RankedBy(locale, f), gone), threshold);
  }

  /** The same for the copy. */
  lemma {:induction false} InlineActiveChainsArePrefix(locale: Locale, f: Field, threshold: real)
    requires f.chains != []
    ensures var es := RankedInline(locale, f);
            var n := |Passing(es, threshold, true)|;
            CutAt(es, threshold, n) && Passing(es, threshold, true) == es[..n]
                && Passing(es, threshold, false) == es[n..]
  {
    InlineFalls(locale, f);
    PassingIsPrefix(RankedInline(locale, f), threshold);
  }
}
