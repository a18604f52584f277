/** Where tie-breaking within epsilon goes wrong, and a run that shows it. */
module RankingTies {
  import opened Wrappers
  import opened Sorting
  import opened Scoring
  import opened Ranking
  import opened RankingLaws

  // ----- Near ties make the engine's comparator cyclic -----

  /**
    Three keys of one score, each nearly tied with the next and named in that order, the last
    clearly more reliable than the first.
   */
  ghost predicate NearlyTied(locale: Locale, a: Key, b: Key, c: Key) {
    && a.score == b.score == c.score
    && Tie(a.reliability, b.reliability) && Tie(b.reliability, c.reliability) && EPSILON < c.reliability - a.reliability
    && Tie(a.latency, b.latency) && Tie(b.latency, c.latency)
    && locale(a.chain, b.chain) < 0.0 && locale(b.chain, c.chain) < 0.0
  }

  lemma {:induction false} NearlyTiedCycle(locale: Locale, a: Key, b: Key, c: Key)
    requires LocaleOrder(locale) && a.chain != b.chain && b.chain != c.chain && NearlyTied(locale, a, b, c)
    ensures CompareKeys(locale, a, b) < 0.0 && CompareKeys(locale, b, c) < 0.0 && CompareKeys(locale, c, a) < 0.0
    ensures CompareKeys(locale, b, a) > 0.0 && CompareKeys(locale, c, b) > 0.0 && CompareKeys(locale, a, c) > 0.0
  {
    assert locale(b.chain, a.chain) > 0.0 && locale(c.chain, b.chain) > 0.0;
  }

  /** Three nearly tied chains chase each other round: no ranking of a run that has them is sorted. */
  lemma {:induction false} NearTiesHaveNoOrder(locale: Locale, f: Field, a: string, b: string, c: string,
      r: seq<Scored>)
    requires LocaleOrder(locale) && a in f.chains && b in f.chains && c in f.chains && a != b && b != c && a != c
    requires NearlyTied(locale, EngineKey(Entry(f, a)), EngineKey(Entry(f, b)), EngineKey(Entry(f, c)))
    requires forall e :: e in r <==> e in Entries(f)
    ensures !SortedBy(By(locale, EngineKey), r)
  {
    var x, y, z := Entry(f, a), Entry(f, b), Entry(f, c);
    EntryListed(f, a);
    EntryListed(f, b);
    EntryListed(f, c);
    NearlyTiedCycle(locale, EngineKey(x), EngineKey(y), EngineKey(z));
    CycleUnsortable(By(locale, EngineKey), r, x, y, z);
  }

  lemma {:induction false} NearTiesAreCircular(locale: Locale, f: Field, a: string, b: string, c: string)
    requires LocaleOrder(locale) && a in f.chains && b in f.chains && c in f.chains && a != b && b != c && a != c
    requires NearlyTied(locale, EngineKey(Entry(f, a)), EngineKey(Entry(f, b)), EngineKey(Entry(f, c)))
    ensures !NoCircle(locale, f)
  {
    var x, y, z := Entry(f, a), Entry(f, b), Entry(f, c);
    EntryListed(f, a);
    EntryListed(f, b);
    EntryListed(f, c);
    NearlyTiedCycle(locale, EngineKey(x), EngineKey(y), EngineKey(z));
    CycleFound(By(locale, EngineKey), Elements(Entries(f)), x, y, z);
  }

  lemma {:induction false} CycleFound<T(!new)>(cmp: (T, T) -> real, dom: iset<T>, a: T, b: T, c: T)
    requires a in dom && b in dom && c in dom && a != b && b != c && a != c
    requires cmp(a, b) < 0.0 && cmp(b, c) < 0.0 && cmp(c, a) < 0.0
    ensures !Acyclic(cmp, dom)
  {
  }

  // ----- A run with near ties -----

  function Row(chain: string, fee: real, reliability: real): MetricRow {
    MetricRow(chain, map[Fee := fee, Reliability := reliability])
  }

  const NEAR_ROWS: seq<MetricRow> := [
    Row("a", 0.0, 0.0), Row("b", 5.0, 0.0000000006), Row("c", 10.0, 0.0000000012), Row("d", 14.0, 0.0)
  ]
  const NEAR: Field := Field(["a", "b", "c", "d"], NEAR_ROWS, Normal, ENGINE)

  ghost predicate NearField(f: Field) {
    && f.rule == ENGINE && f.chains == ["a", "b", "c", "d"]
    && Raws(f, "a") == Profile(0.0, 220.0, 0.0, 0.75) && Raws(f, "b") == Profile(5.0, 220.0, 0.0000000006, 0.75)
    && Raws(f, "c") == Profile(10.0, 220.0, 0.0000000012, 0.75) && Raws(f, "d") == Profile(14.0, 220.0, 0.0, 0.75)
  }

  lemma {:induction false} NearRaws()
    ensures NearField(NEAR)
  {
    assert FirstRow(NEAR_ROWS, "a") == Some(NEAR_ROWS[0]);
    assert FirstRow(NEAR_ROWS, "b") == FirstRow(NEAR_ROWS[1..], "b") == Some(NEAR_ROWS[1]);
    assert FirstRow(NEAR_ROWS, "c") == FirstRow(NEAR_ROWS[1..], "c") == FirstRow(NEAR_ROWS[1..][1..], "c")
        == Some(NEAR_ROWS[2]);
    assert FirstRow(NEAR_ROWS, "d") == FirstRow(NEAR_ROWS[1..], "d") == FirstRow(NEAR_ROWS[1..][1..], "d")
        == FirstRow(NEAR_ROWS[1..][1..][1..], "d") == Some(NEAR_ROWS[3]);
  }

  lemma {:induction false} BoundsAre(f: Field, k: Metric, i: nat, j: nat)
    requires i < |f.chains| && j < |f.chains|
    requires forall n | 0 <= n < |f.chains| :: Values(f, k)[i] <= Values(f, k)[n] <= Values(f, k)[j]
    ensures BoundsOf(f, k) == Bounds(Values(f, k)[i], Values(f, k)[j])
  {
  }

  lemma {:induction false} NearValues(f: Field, k: Metric)
    requires NearField(f)
    ensures Values(f, k) == match k
                            case Fee => [0.0, 5.0, 10.0, 14.0]
                            case Latency => [220.0, 220.0, 220.0, 220.0]
                            case Reliability => [0.0, 0.0000000006, 0.0000000012, 0.0]
                            case Liquidity => [0.75, 0.75, 0.75, 0.75]
  {
  }

  lemma {:induction false} NearBounds(f: Field, k: Metric)
    requires NearField(f)
    ensures BoundsOf(f, k) == match k
                              case Fee => Bounds(0.0, 14.0)
                              case Latency => Bounds(220.0, 220.0)
                              case Reliability => Bounds(0.0, 0.0000000012)
                              case Liquidity => Bounds(0.75, 0.75)
  {
    NearValues(f, k);
    BoundsAre(f, k, 0, if k.Fee? then 3 else if k.Reliability? then 2 else 0);
  }

  lemma {:induction false} NearFees()
    ensures var b := Bounds(0.0, 14.0);
            Component(b, 0.0, Fee) == 0.35 && Component(b, 5.0, Fee) == 0.225 && Component(b, 10.0, Fee) == 0.1
  {
  }

  lemma {:induction false} NearReliabilities()
    ensures var b := Bounds(0.0, 0.0000000012);
            && Component(b, 0.0, Reliability) == 0.0 && Component(b, 0.0000000006, Reliability) == 0.125
            && Component(b, 0.0000000012, Reliability) == 0.25
  {
  }

  lemma {:induction false} ZeroRange(x: real, k: Metric)
    ensures Component(Bounds(x, x), x, k) == WEIGHTS.Get(k)
  {
    WeightedEnds(k);
  }

  lemma {:induction false} ScoreOf(fee: real, reliability: real)
    requires fee + reliability == 0.35
    ensures Score(Profile(fee, 0.3, reliability, 0.1)) == 0.75
  {
  }

  lemma {:induction false} NearComponents(f: Field)
    requires NearField(f)
    ensures Components(AllBounds(f), Raws(f, "a")) == Profile(0.35, 0.3, 0.0, 0.1)
    ensures Components(AllBounds(f), Raws(f, "b")) == Profile(0.225, 0.3, 0.125, 0.1)
    ensures Components(AllBounds(f), Raws(f, "c")) == Profile(0.1, 0.3, 0.25, 0.1)
  {
    NearBounds(f, Fee);
    NearBounds(f, Latency);
    NearBounds(f, Reliability);
    NearBounds(f, Liquidity);
    NearFees();
    NearReliabilities();
    ZeroRange(220.0, Latency);
    ZeroRange(0.75, Liquidity);
  }

  lemma {:induction false} NearScores(f: Field)
    requires NearField(f)
    ensures Entry(f, "a").score == 0.75 && Entry(f, "b").score == 0.75 && Entry(f, "c").score == 0.75
  {
    NearComponents(f);
    ScoreOf(0.35, 0.0);
    ScoreOf(0.225, 0.125);
    ScoreOf(0.1, 0.25);
  }

  lemma {:induction false} NearKeys(locale: Locale, a: Key, b: Key, c: Key)
    requires a == Key(0.75, 0.0, 220.0, "a") && b == Key(0.75, 0.0000000006, 220.0, "b")
    requires c == Key(0.75, 0.0000000012, 220.0, "c") && locale("a", "b") < 0.0 && locale("b", "c") < 0.0
    ensures NearlyTied(locale, a, b, c)
  {
  }

  lemma {:induction false} NearDistinct(f: Field)
    requires NearField(f)
    ensures f.chains != [] && Distinct(f.chains)
  {
    assert f.chains[0][0] == 'a' && f.chains[1][0] == 'b' && f.chains[2][0] == 'c' && f.chains[3][0] == 'd';
  }

  lemma {:induction false} NearFieldTies(locale: Locale, f: Field)
    requires NearField(f) && locale("a", "b") < 0.0 && locale("b", "c") < 0.0
    ensures NearlyTied(locale, EngineKey(Entry(f, "a")), EngineKey(Entry(f, "b")), EngineKey(Entry(f, "c")))
  {
    NearScores(f);
    NearKeys(locale, EngineKey(Entry(f, "a")), EngineKey(Entry(f, "b")), EngineKey(Entry(f, "c")));
  }

  lemma {:induction false} NearRun() returns (f: Field)
    ensures NearField(f)
  {
    f := NEAR;
    NearRaws();
  }

  /** There is such a run. */
  lemma {:induction false} NearTiesHappen(locale: Locale) returns (f: Field)
    requires locale("a", "b") < 0.0 && locale("b", "c") < 0.0
    ensures f.chains != [] && Distinct(f.chains)
    ensures NearlyTied(locale, EngineKey(Entry(f, "a")), EngineKey(Entry(f, "b")), EngineKey(Entry(f, "c")))
  {
    f := NearRun();
    NearDistinct(f);
    NearFieldTies(locale, f);
  }

  lemma {:induction false} NearRunDepends(locale: Locale, f: Field) returns (g: Field)
    requires LocaleOrder(locale) && f.chains != [] && Distinct(f.chains) && !NoCircle(locale, f)
    ensures g.chains != [] && Distinct(g.chains) && Reordered(f, g) && RankedBy(locale, f) != RankedBy(locale, g)
  {
    RankingIgnoresOrderExactly(locale, f);
    g :| Reordered(f, g) && g.chains != [] && Distinct(g.chains) && RankedBy(locale, g) != RankedBy(locale, f);
  }

  lemma {:induction false} NearNames(f: Field)
    requires NearField(f)
    ensures "a" in f.chains && "b" in f.chains && "c" in f.chains && "a" != "b" && "b" != "c" && "a" != "c"
  {
    assert f.chains[0] == "a" && f.chains[1] == "b" && f.chains[2] == "c";
  }

  /** Two orders of the same distinct chains that the engine ranks differently. */
  lemma {:induction false} OrderCanMatter(locale: Locale) returns (f: Field, g: Field)
    requires LocaleOrder(locale) && locale("a", "b") < 0.0 && locale("b", "c") < 0.0
    ensures f.chains != [] && g.chains != [] && Distinct(f.chains) && Distinct(g.chains)
    ensures Reordered(f, g) && RankedBy(locale, f) != RankedBy(locale, g)
  {
    f := NearRun();
    NearNames(f);
    NearDistinct(f);
    NearFieldTies(locale, f);
    NearTiesAreCircular(locale, f, "a", "b", "c");
    g := NearRunDepends(locale, f);
  }

  // ----- A run whose ties the two copies break apart -----

  const TIED_ROWS: seq<MetricRow> := [
    MetricRow("a", map[Fee := 7.0, Latency := 0.0]), MetricRow("b", map[Fee := 1.0, Latency := 6.0]),
    MetricRow("c", map[Fee := 0.0, Latency := 6.0])
  ]
  const TIED: Field := Field(["a", "b", "c"], TIED_ROWS, Normal, ENGINE)

  ghost predicate TiedField(f: Field) {
    && f.rule == ENGINE && f.chains == ["a", "b", "c"]
    && Raws(f, "a") == Profile(7.0, 0.0, 0.965, 0.75) && Raws(f, "b") == Profile(1.0, 6.0, 0.965, 0.75)
    && Raws(f, "c") == Profile(0.0, 6.0, 0.965, 0.75)
  }

  lemma {:induction false} TiedRaws()
    ensures TiedField(TIED)
  {
    assert FirstRow(TIED_ROWS, "a") == Some(TIED_ROWS[0]);
    assert FirstRow(TIED_ROWS, "b") == FirstRow(TIED_ROWS[1..], "b") == Some(TIED_ROWS[1]);
    assert FirstRow(TIED_ROWS, "c") == FirstRow(TIED_ROWS[1..], "c") == FirstRow(TIED_ROWS[1..][1..], "c")
        == Some(TIED_ROWS[2]);
  }

  lemma {:induction false} TiedValues(f: Field, k: Metric)
    requires TiedField(f)
    ensures Values(f, k) == match k
                            case Fee => [7.0, 1.0, 0.0]
                            case Latency => [0.0, 6.0, 6.0]
                            case Reliability => [0.965, 0.965, 0.965]
                            case Liquidity => [0.75, 0.75, 0.75]
  {
  }

  lemma {:induction false} TiedBounds(f: Field, k: Metric)
    requires TiedField(f)
    ensures BoundsOf(f, k) == match k
                              case Fee => Bounds(0.0, 7.0)
                              case Latency => Bounds(0.0, 6.0)
                              case Reliability => Bounds(0.965, 0.965)
                              case Liquidity => Bounds(0.75, 0.75)
  {
    TiedValues(f, k);
    BoundsAre(f, k, if k.Fee? then 2 else 0, if k.Latency? then 1 else 0);
  }

  lemma {:induction false} TiedFees()
    ensures Component(Bounds(0.0, 7.0), 7.0, Fee) == 0.0 && Component(Bounds(0.0, 7.0), 1.0, Fee) == 0.3
    ensures Component(Bounds(0.0, 6.0), 0.0, Latency) == 0.3 && Component(Bounds(0.0, 6.0), 6.0, Latency) == 0.0
  {
  }

  lemma {:induction false} TiedComponents(f: Field)
    requires TiedField(f)
    ensures Components(AllBounds(f), Raws(f, "a")) == Profile(0.0, 0.3, 0.25, 0.1)
    ensures Components(AllBounds(f), Raws(f, "b")) == Profile(0.3, 0.0, 0.25, 0.1)
  {
    TiedBounds(f, Fee);
    TiedBounds(f, Latency);
    TiedBounds(f, Reliability);
    TiedBounds(f, Liquidity);
    TiedFees();
    ZeroRange(0.965, Reliability);
    ZeroRange(0.75, Liquidity);
  }

  lemma {:induction false} TiedScores()
    ensures Score(Profile(0.0, 0.3, 0.25, 0.1)) == 0.65 && Score(Profile(0.3, 0.0, 0.25, 0.1)) == 0.65
  {
  }

  lemma {:induction false} TiedRawsOf(f: Field, c: string)
    requires TiedField(f) && c in f.chains
    ensures Raws(f, c).reliability == 0.965 && (Raws(f, c).latency == 0.0 || Raws(f, c).latency == 6.0)
  {
  }

  lemma {:induction false} TiedHasNoNearTies(f: Field)
    requires TiedField(f)
    ensures NoNearTies(f)
  {
    forall a, b | a in f.chains && b in f.chains
      ensures RawValuesApart(Raws(f, a), Raws(f, b))
    {
      TiedRawsOf(f, a);
      TiedRawsOf(f, b);
    }
    NoNearTiesFromRaws(f);
  }

  lemma {:induction false} TiedRanges(f: Field)
    requires TiedField(f)
    ensures NoRangeIsEpsilon(AllBounds(f))
  {
    forall k: Metric ensures AllBounds(f).Get(k).max - AllBounds(f).Get(k).min != EPSILON {
      BoundsGet(f, k);
      TiedBounds(f, k);
    }
  }

  lemma {:induction false} TiedEntries(f: Field)
    requires TiedField(f)
    ensures Entry(f, "a").score == Entry(f, "b").score
    ensures Entry(f, "a").components.latency == 0.3 && Entry(f, "b").components.latency == 0.0
  {
    TiedComponents(f);
    TiedScores();
  }

  lemma {:induction false} TiedDistinct(f: Field)
    requires TiedField(f)
    ensures f.chains != [] && Distinct(f.chains) && "a" in f.chains && "b" in f.chains
  {
    assert f.chains[0] == "a" && f.chains[1] == "b" && f.chains[2] == "c";
    assert f.chains[0][0] == 'a' && f.chains[1][0] == 'b' && f.chains[2][0] == 'c';
  }

  lemma {:induction false} TiedRun() returns (f: Field)
    ensures TiedField(f)
  {
    f := TIED;
    TiedRaws();
  }

  /** There is a run with two chains tied on score and reliability that the copies order differently. */
  lemma {:induction false} LatencyTiesHappen() returns (f: Field)
    ensures f.rule == ENGINE && f.chains != [] && Distinct(f.chains) && NoNearTies(f) && NoRangeIsEpsilon(AllBounds(f))
    ensures "a" in f.chains && "b" in f.chains && Entry(f, "a").score == Entry(f, "b").score
    ensures Raws(f, "a").reliability == Raws(f, "b").reliability && Raws(f, "a").latency < Raws(f, "b").latency
    ensures Entry(f, "a").components.latency != Entry(f, "b").components.latency
  {
    f := TiedRun();
    TiedDistinct(f);
    TiedHasNoNearTies(f);
    TiedRanges(f);
    TiedEntries(f);
  }

  // ----- A range of exactly epsilon -----

  const EPSILON_ROWS: seq<MetricRow> := [MetricRow("a", map[Fee := 0.0]), MetricRow("b", map[Fee := EPSILON])]

  lemma {:induction false} EpsilonRaws(f: Field)
    requires f.chains == ["a", "b"] && f.rows == EPSILON_ROWS
    ensures Values(f, Fee) == [0.0, EPSILON]
  {
    assert FirstRow(EPSILON_ROWS, "a") == Some(EPSILON_ROWS[0]);
    assert FirstRow(EPSILON_ROWS, "b") == FirstRow(EPSILON_ROWS[1..], "b") == Some(EPSILON_ROWS[1]);
  }

  /** There is a run in which the two copies give a chain different components. */
  lemma {:induction false} CopiesCanDisagree() returns (f: Field)
    ensures f.chains != [] && Distinct(f.chains) && !SameEntries(f)
  {
    f := Field(["a", "b"], EPSILON_ROWS, Normal, ENGINE);
    assert f.chains[0][0] == 'a' && f.chains[1][0] == 'b';
    EpsilonRaws(f);
    BoundsAre(f, Fee, 0, 1);
    EpsilonRangeDiffers(f, Fee);
  }
}
