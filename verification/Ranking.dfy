/**
  Scoring runs: completing missing metrics, the bounds, the order of the chains and their
  activation, for both copies of the engine. The order of `localeCompare` is a given total
  order of names.
 */
module Ranking {
  import opened Wrappers
  import opened Sorting
  import opened Scoring

  // ----- Completed metrics -----

  datatype Scenario = Normal | Congested

  function Fallbacks(scenario: Scenario): Profile<real> {
    match scenario
    case Normal => Profile(35.0, 220.0, 0.965, 0.75)
    case Congested => Profile(85.0, 480.0, 0.9, 0.55)
  }

  /** One input row; a value is missing when it is absent, null or not a finite number. */
  datatype MetricRow = MetricRow(chain: string, values: map<Metric, real>)

  function FirstRow(rows: seq<MetricRow>, chain: string): Option<MetricRow> {
    if rows == [] then None
    else if rows[0].chain == chain then Some(rows[0])
    else FirstRow(rows[1..], chain)
  }

  predicate Reports(row: Option<MetricRow>, k: Metric) {
    row.Some? && k in row.value.values
  }

  function RawValue(row: Option<MetricRow>, scenario: Scenario, k: Metric): real {
    if Reports(row, k) then row.value.values[k] else Fallbacks(scenario).Get(k)
  }

  function RawProfile(row: Option<MetricRow>, scenario: Scenario): Profile<real> {
    Profile(RawValue(row, scenario, Fee), RawValue(row, scenario, Latency),
            RawValue(row, scenario, Reliability), RawValue(row, scenario, Liquidity))
  }

  // ----- Bounds -----

  predicate IsMin(m: real, xs: seq<real>) {
    m in xs && forall i | 0 <= i < |xs| :: m <= xs[i]
  }

  predicate IsMax(m: real, xs: seq<real>) {
    m in xs && forall i | 0 <= i < |xs| :: xs[i] <= m
  }

  lemma {:induction false} ExtremesExist(xs: seq<real>) returns (low: real, high: real)
    requires xs != []
    ensures IsMin(low, xs) && IsMax(high, xs)
  {
    if |xs| == 1 {
      low, high := xs[0], xs[0];
    } else {
      low, high := ExtremesExist(xs[1..]);
      assert xs == [xs[0]] + xs[1..];
      low := if xs[0] <= low then xs[0] else low;
      high := if xs[0] >= high then xs[0] else high;
    }
  }

  lemma {:induction false} SomeExtremes(xs: seq<real>)
    requires xs != []
    ensures (exists m :: IsMin(m, xs)) && (exists m :: IsMax(m, xs))
  {
    var low, high := ExtremesExist(xs);
  }

  /** `Math.min(...values)`. */
  function MinOf(xs: seq<real>): (m: real)
    requires xs != []
    ensures IsMin(m, xs)
  {
    SomeExtremes(xs);
    var m :| IsMin(m, xs);
    m
  }

  /** `Math.max(...values)`. */
  function MaxOf(xs: seq<real>): (m: real)
    requires xs != []
    ensures IsMax(m, xs)
  {
    SomeExtremes(xs);
    var m :| IsMax(m, xs);
    m
  }

  /** How a copy turns raw values into components. */
  type Rule = (Profile<Bounds>, Profile<real>) -> Profile<real>

  const ENGINE: Rule := (bs: Profile<Bounds>, raws: Profile<real>) => Components(bs, raws)
  const INLINE: Rule := (bs: Profile<Bounds>, raws: Profile<real>) => ComponentsInline(bs, raws)

  /** What a run scores: the chains, their metric rows and the scenario, by the rule of its copy. */
  datatype Field = Field(chains: seq<string>, rows: seq<MetricRow>, scenario: Scenario, rule: Rule)

  function Raws(f: Field, chain: string): Profile<real> {
    RawProfile(FirstRow(f.rows, chain), f.scenario)
  }

  function Values(f: Field, k: Metric): (r: seq<real>)
    ensures |r| == |f.chains|
    ensures forall i | 0 <= i < |r| :: r[i] == Raws(f, f.chains[i]).Get(k)
  {
    seq(|f.chains|, i requires 0 <= i < |f.chains| => Raws(f, f.chains[i]).Get(k))
  }

  function BoundsOf(f: Field, k: Metric): Bounds
    requires f.chains != []
  {
    Bounds(MinOf(Values(f, k)), MaxOf(Values(f, k)))
  }

  function AllBounds(f: Field): Profile<Bounds>
    requires f.chains != []
  {
    Profile(BoundsOf(f, Fee), BoundsOf(f, Latency), BoundsOf(f, Reliability), BoundsOf(f, Liquidity))
  }

  // ----- Scored chains -----

  datatype Scored = Scored(chain: string, score: real, components: Profile<real>, raws: Profile<real>)

  function ScoredBy(rule: Rule, bs: Profile<Bounds>, chain: string, raws: Profile<real>): Scored {
    var c := rule(bs, raws);
    Scored(chain, Score(c), c, raws)
  }

  function Entry(f: Field, chain: string): Scored
    requires f.chains != []
  {
    ScoredBy(f.rule, AllBounds(f), chain, Raws(f, chain))
  }

  function Entries(f: Field): (r: seq<Scored>)
    requires f.chains != []
    ensures |r| == |f.chains|
    ensures forall i | 0 <= i < |r| :: r[i] == Entry(f, f.chains[i])
  {
    seq(|f.chains|, i requires 0 <= i < |f.chains| => Entry(f, f.chains[i]))
  }

  // ----- The order of the chains -----

  /** What a comparator looks at. */
  datatype Key = Key(score: real, reliability: real, latency: real, chain: string)

  predicate Tie(x: real, y: real) {
    Abs(x - y) <= EPSILON
  }

  type Locale = (string, string) -> real

  function CompareKeys(locale: Locale, a: Key, b: Key): real {
    if !Tie(a.score, b.score) then b.score - a.score
    else if !Tie(a.reliability, b.reliability) then b.reliability - a.reliability
    else if !Tie(a.latency, b.latency) then a.latency - b.latency
    else locale(a.chain, b.chain)
  }

  /** The engine breaks ties by the raw values. */
  function EngineKey(e: Scored): Key {
    Key(e.score, e.raws.reliability, e.raws.latency, e.chain)
  }

  /** The inlined copy breaks them by the weighted components. */
  function InlineKey(e: Scored): Key {
    Key(e.score, e.components.reliability, e.components.latency, e.chain)
  }

  function By(locale: Locale, key: Scored -> Key): (Scored, Scored) -> real {
    (a: Scored, b: Scored) => CompareKeys(locale, key(a), key(b))
  }

  function RankedBy(locale: Locale, f: Field): (r: seq<Scored>)
    requires f.chains != []
    ensures |r| == |f.chains|
  {
    SortBy(By(locale, EngineKey), Entries(f))
  }

  function RankedInline(locale: Locale, f: Field): (r: seq<Scored>)
    requires f.chains != []
    ensures |r| == |f.chains|
  {
    SortBy(By(locale, InlineKey), Entries(f))
  }

  ghost predicate LocaleOrder(locale: Locale) {
    && (forall s, t | s != t :: locale(s, t) < 0.0 <==> locale(t, s) > 0.0)
    && (forall s, t | s != t :: locale(s, t) != 0.0)
    && (forall s, t, u | s != u && locale(s, t) < 0.0 && locale(t, u) < 0.0 :: locale(s, u) < 0.0)
  }

  // ----- When a comparator is an order -----

  /** Equal, or too far apart to tie. */
  predicate Apart(x: real, y: real) {
    x == y || !Tie(x, y)
  }

  ghost predicate KeysApart(a: Key, b: Key) {
    && Apart(a.score, b.score)
    && (a.score == b.score ==> Apart(a.reliability, b.reliability))
    && (a.score == b.score && a.reliability == b.reliability ==> Apart(a.latency, b.latency))
  }

  /** Higher score, then higher reliability, then lower latency, then the earlier name. */
  ghost predicate Before(locale: Locale, a: Key, b: Key) {
    a.score > b.score
    || (a.score == b.score
        && (a.reliability > b.reliability
            || (a.reliability == b.reliability
                && (a.latency < b.latency || (a.latency == b.latency && locale(a.chain, b.chain) < 0.0)))))
  }

  lemma {:induction false} CompareIsBefore(locale: Locale, a: Key, b: Key)
    requires LocaleOrder(locale) && KeysApart(a, b) && KeysApart(b, a) && a.chain != b.chain
    ensures CompareKeys(locale, a, b) < 0.0 <==> Before(locale, a, b)
    ensures CompareKeys(locale, a, b) > 0.0 <==> Before(locale, b, a)
    ensures CompareKeys(locale, a, b) != 0.0
  {
    assert locale(a.chain, b.chain) != 0.0;
    assert locale(a.chain, b.chain) < 0.0 <==> locale(b.chain, a.chain) > 0.0;
    assert locale(b.chain, a.chain) < 0.0 <==> locale(a.chain, b.chain) > 0.0;
  }

  lemma {:induction false} BeforeTransitive(locale: Locale, a: Key, b: Key, c: Key)
    requires LocaleOrder(locale) && a.chain != c.chain && Before(locale, a, b) && Before(locale, b, c)
    ensures Before(locale, a, c)
  {
  }

  ghost predicate Separated(key: Scored -> Key, dom: iset<Scored>) {
    && (forall a, b | a in dom && b in dom :: KeysApart(key(a), key(b)))
    && (forall a, b | a in dom && b in dom && a != b :: key(a).chain != key(b).chain)
  }

  lemma {:induction false} ByConsistent(locale: Locale, key: Scored -> Key, dom: iset<Scored>)
    requires LocaleOrder(locale) && Separated(key, dom)
    ensures Consistent(By(locale, key), dom)
  {
    var cmp := By(locale, key);
    forall a, b | a in dom && b in dom && a != b
      ensures cmp(a, b) < 0.0 <==> cmp(b, a) > 0.0
      ensures cmp(a, b) != 0.0
    {
      CompareIsBefore(locale, key(a), key(b));
      CompareIsBefore(locale, key(b), key(a));
    }
    forall a, b, c | a in dom && b in dom && c in dom && a != c && cmp(a, b) < 0.0 && cmp(b, c) < 0.0
      ensures cmp(a, c) < 0.0
    {
      CompareTransitive(locale, key, a, b, c, dom);
    }
  }

  lemma {:induction false} CompareTransitive(
      locale: Locale, key: Scored -> Key, a: Scored, b: Scored, c: Scored, dom: iset<Scored>)
    requires LocaleOrder(locale) && Separated(key, dom) && a in dom && b in dom && c in dom && a != c
    requires CompareKeys(locale, key(a), key(b)) < 0.0 && CompareKeys(locale, key(b), key(c)) < 0.0
    ensures CompareKeys(locale, key(a), key(c)) < 0.0
  {
    CompareIsBefore(locale, key(a), key(c));
    if a != b && b != c {
      CompareIsBefore(locale, key(a), key(b));
      CompareIsBefore(locale, key(b), key(c));
      BeforeTransitive(locale, key(a), key(b), key(c));
    }
  }

  // ----- Entries of a field -----

  lemma {:induction false} RawsInBounds(f: Field, chain: string, k: Metric)
    requires chain in f.chains
    ensures InBounds(BoundsOf(f, k), Raws(f, chain).Get(k))
  {
    var i :| 0 <= i < |f.chains| && f.chains[i] == chain;
    assert Values(f, k)[i] == Raws(f, chain).Get(k);
  }

  lemma {:induction false} BoundsGet(f: Field, k: Metric)
    requires f.chains != []
    ensures AllBounds(f).Get(k) == BoundsOf(f, k)
  {
  }

  lemma {:induction false} AllRawsInBounds(f: Field, chain: string)
    requires chain in f.chains
    ensures AllInBounds(AllBounds(f), Raws(f, chain))
  {
    var bs, raws := AllBounds(f), Raws(f, chain);
    forall k: Metric ensures InBounds(bs.Get(k), raws.Get(k)) {
      RawsInBounds(f, chain, k);
      BoundsGet(f, k);
    }
  }

  lemma {:induction false} ScoreIsMicro(c: Profile<real>)
    ensures IsMicro(Score(c))
  {
    RoundIsMicro(c.fee + c.latency + c.reliability + c.liquidity);
  }

  lemma {:induction false} ScoresAreMicros(f: Field, chain: string)
    requires f.chains != []
    ensures IsMicro(Entry(f, chain).score)
  {
    ScoreIsMicro(Entry(f, chain).components);
  }

  lemma {:induction false} InlineKeysAreMicros(f: Field, chain: string)
    requires f.chains != [] && f.rule == INLINE
    ensures var e := Entry(f, chain);
            IsMicro(e.score) && IsMicro(e.components.reliability) && IsMicro(e.components.latency)
  {
    ScoresAreMicros(f, chain);
    ComponentsInlineAreMicros(AllBounds(f), Raws(f, chain));
  }

  /** Chains with the same score do not nearly tie on raw reliability, nor then on raw latency. */
  ghost predicate NoNearTies(f: Field)
    requires f.chains != []
  {
    forall a, b | a in f.chains && b in f.chains && Entry(f, a).score == Entry(f, b).score ::
      && Apart(Raws(f, a).reliability, Raws(f, b).reliability)
      && (Raws(f, a).reliability == Raws(f, b).reliability ==> Apart(Raws(f, a).latency, Raws(f, b).latency))
  }

  ghost predicate RawValuesApart(x: Profile<real>, y: Profile<real>) {
    Apart(x.reliability, y.reliability) && Apart(x.latency, y.latency)
  }

  /** It is enough that distinct raw values are more than epsilon apart. */
  lemma {:induction false} NoNearTiesFromRaws(f: Field)
    requires f.chains != []
    requires forall a, b | a in f.chains && b in f.chains :: RawValuesApart(Raws(f, a), Raws(f, b))
    ensures NoNearTies(f)
  {
    forall a, b | a in f.chains && b in f.chains
      ensures Apart(Raws(f, a).reliability, Raws(f, b).reliability) && Apart(Raws(f, a).latency, Raws(f, b).latency)
    {
      assert RawValuesApart(Raws(f, a), Raws(f, b));
    }
  }

  lemma {:induction false} MicrosApart(x: real, y: real)
    requires IsMicro(x) && IsMicro(y)
    ensures Apart(x, y)
  {
    MicrosTie(x, y);
  }

  lemma {:induction false} EngineKeysApart(f: Field, a: string, b: string)
    requires a in f.chains && b in f.chains && NoNearTies(f)
    ensures KeysApart(EngineKey(Entry(f, a)), EngineKey(Entry(f, b)))
  {
    ScoresAreMicros(f, a);
    ScoresAreMicros(f, b);
    MicrosApart(Entry(f, a).score, Entry(f, b).score);
  }

  lemma {:induction false} InlineKeysApart(f: Field, a: string, b: string)
    requires f.chains != [] && f.rule == INLINE
    ensures KeysApart(InlineKey(Entry(f, a)), InlineKey(Entry(f, b)))
  {
    var x, y := Entry(f, a), Entry(f, b);
    InlineKeysAreMicros(f, a);
    InlineKeysAreMicros(f, b);
    MicrosApart(x.score, y.score);
    MicrosApart(x.components.reliability, y.components.reliability);
    MicrosApart(x.components.latency, y.components.latency);
  }

  lemma {:induction false} EntriesSeparated(f: Field)
    requires f.chains != [] && NoNearTies(f)
    ensures Separated(EngineKey, Elements(Entries(f)))
  {
    var dom := Elements(Entries(f));
    forall a, b | a in dom && b in dom
      ensures KeysApart(EngineKey(a), EngineKey(b)) && (a != b ==> a.chain != b.chain)
    {
      ListedEntry(f, a);
      ListedEntry(f, b);
      EngineKeysApart(f, a.chain, b.chain);
    }
  }

  lemma {:induction false} InlineEntriesSeparated(f: Field)
    requires f.chains != [] && f.rule == INLINE
    ensures Separated(InlineKey, Elements(Entries(f)))
  {
    var dom := Elements(Entries(f));
    forall a, b | a in dom && b in dom
      ensures KeysApart(InlineKey(a), InlineKey(b)) && (a != b ==> a.chain != b.chain)
    {
      ListedEntry(f, a);
      ListedEntry(f, b);
      InlineKeysApart(f, a.chain, b.chain);
    }
  }

  lemma {:induction false} ElementsWithin(es: seq<Scored>)
    ensures Within(es, Elements(es))
  {
  }

  lemma {:induction false} SortIsSorted(locale: Locale, key: Scored -> Key, es: seq<Scored>)
    requires LocaleOrder(locale) && Separated(key, Elements(es)) && Distinct(es)
    ensures var r := SortBy(By(locale, key), es);
            SortedBy(By(locale, key), r) && Distinct(r) && Within(r, Elements(es)) && forall e :: e in r <==> e in es
  {
    ByConsistent(locale, key, Elements(es));
    ElementsWithin(es);
    SortByIsSort(By(locale, key), es, Elements(es));
  }

  lemma {:induction false} SortIgnoresOrder(locale: Locale, key: Scored -> Key, es: seq<Scored>, fs: seq<Scored>)
    requires LocaleOrder(locale) && Separated(key, Elements(es)) && Distinct(es) && Distinct(fs)
    requires forall e :: e in es <==> e in fs
    ensures SortBy(By(locale, key), es) == SortBy(By(locale, key), fs)
  {
    assert Elements(fs) == Elements(es);
    SortIsSorted(locale, key, es);
    SortIsSorted(locale, key, fs);
    ByConsistent(locale, key, Elements(es));
    SortedUnique(By(locale, key), SortBy(By(locale, key), es), SortBy(By(locale, key), fs), Elements(es));
  }

  lemma {:induction false} EntriesDistinct(f: Field)
    requires f.chains != [] && Distinct(f.chains)
    ensures Distinct(Entries(f))
  {
  }

  /** A ranking lists every entry once, in the comparator's order. */
  lemma {:induction false} RankingIsSorted(locale: Locale, f: Field)
    requires LocaleOrder(locale) && f.chains != [] && Distinct(f.chains) && NoNearTies(f)
    ensures var r := RankedBy(locale, f);
            SortedBy(By(locale, EngineKey), r) && forall e :: e in r <==> e in Entries(f)
  {
    EntriesSeparated(f);
    EntriesDistinct(f);
    SortIsSorted(locale, EngineKey, Entries(f));
  }

  lemma {:induction false} InlineRankingIsSorted(locale: Locale, f: Field)
    requires LocaleOrder(locale) && f.chains != [] && Distinct(f.chains) && f.rule == INLINE
    ensures var r := RankedInline(locale, f);
            SortedBy(By(locale, InlineKey), r) && forall e :: e in r <==> e in Entries(f)
  {
    InlineEntriesSeparated(f);
    EntriesDistinct(f);
    SortIsSorted(locale, InlineKey, Entries(f));
  }

  // ----- The order of allowedChains does not matter -----

  /** The same run with its chains listed in another order. */
  ghost predicate Reordered(f: Field, g: Field) {
    f.rows == g.rows && f.scenario == g.scenario && f.rule == g.rule && forall c :: c in f.chains <==> c in g.chains
  }

  lemma {:induction false} ValuesReordered(f: Field, g: Field, k: Metric)
    requires Reordered(f, g)
    ensures forall x :: x in Values(f, k) ==> x in Values(g, k)
  {
    forall x | x in Values(f, k) ensures x in Values(g, k) {
      var i :| 0 <= i < |f.chains| && Values(f, k)[i] == x;
      assert f.chains[i] in g.chains;
      var j :| 0 <= j < |g.chains| && g.chains[j] == f.chains[i];
      assert Values(g, k)[j] == x;
    }
  }

  lemma {:induction false} ExtremesReordered(xs: seq<real>, ys: seq<real>)
    requires xs != [] && ys != [] && forall x :: x in xs <==> x in ys
    ensures MinOf(xs) == MinOf(ys) && MaxOf(xs) == MaxOf(ys)
  {
    assert MinOf(xs) in ys && MinOf(ys) in xs && MaxOf(xs) in ys && MaxOf(ys) in xs;
  }

  lemma {:induction false} BoundsReordered(f: Field, g: Field, k: Metric)
    requires Reordered(f, g) && f.chains != [] && g.chains != []
    ensures BoundsOf(f, k) == BoundsOf(g, k)
  {
    ValuesReordered(f, g, k);
    ValuesReordered(g, f, k);
    ExtremesReordered(Values(f, k), Values(g, k));
  }

  lemma {:induction false} AllBoundsReordered(f: Field, g: Field)
    requires Reordered(f, g) && f.chains != [] && g.chains != []
    ensures AllBounds(f) == AllBounds(g)
  {
    BoundsReordered(f, g, Fee);
    BoundsReordered(f, g, Latency);
    BoundsReordered(f, g, Reliability);
    BoundsReordered(f, g, Liquidity);
  }

  lemma {:induction false} EntryReordered(f: Field, g: Field, chain: string)
    requires Reordered(f, g) && f.chains != [] && g.chains != []
    ensures Entry(f, chain) == Entry(g, chain)
  {
    AllBoundsReordered(f, g);
  }

  lemma {:induction false} EntriesReordered(f: Field, g: Field)
    requires Reordered(f, g) && f.chains != [] && g.chains != []
    ensures forall e :: e in Entries(f) ==> e in Entries(g)
  {
    forall e | e in Entries(f) ensures e in Entries(g) {
      ListedEntry(f, e);
      EntryReordered(f, g, e.chain);
      EntryListed(g, e.chain);
    }
  }

  lemma {:induction false} CompareAntisymmetric(locale: Locale, a: Key, b: Key)
    requires LocaleOrder(locale) && a.chain != b.chain
    ensures CompareKeys(locale, a, b) != 0.0 && (CompareKeys(locale, a, b) < 0.0 <==> CompareKeys(locale, b, a) > 0.0)
  {
    assert locale(a.chain, b.chain) != 0.0;
    assert locale(a.chain, b.chain) < 0.0 <==> locale(b.chain, a.chain) > 0.0;
    assert locale(b.chain, a.chain) < 0.0 <==> locale(a.chain, b.chain) > 0.0;
  }

  lemma {:induction false} ByAntisymmetric(locale: Locale, key: Scored -> Key, dom: iset<Scored>)
    requires LocaleOrder(locale) && forall a, b | a in dom && b in dom && a != b :: key(a).chain != key(b).chain
    ensures Antisymmetric(By(locale, key), dom)
  {
    forall a, b | a in dom && b in dom && a != b
      ensures By(locale, key)(a, b) != 0.0 && (By(locale, key)(a, b) < 0.0 <==> By(locale, key)(b, a) > 0.0)
    {
      CompareAntisymmetric(locale, key(a), key(b));
    }
  }

  /** No three entries come before one another in a circle. */
  ghost predicate NoCircle(locale: Locale, f: Field)
    requires f.chains != []
  {
    Acyclic(By(locale, EngineKey), Elements(Entries(f)))
  }

  /** The ranking is the same whatever the order of the chains. */
  ghost predicate IgnoresOrder(locale: Locale, f: Field)
    requires f.chains != []
  {
    forall g | Reordered(f, g) && g.chains != [] && Distinct(g.chains) :: RankedBy(locale, g) == RankedBy(locale, f)
  }

  lemma {:induction false} EntryListed(f: Field, chain: string)
    requires chain in f.chains
    ensures Entry(f, chain) in Entries(f)
  {
    var i :| 0 <= i < |f.chains| && f.chains[i] == chain;
    assert Entries(f)[i] == Entry(f, chain);
  }

  lemma {:induction false} ListedEntry(f: Field, e: Scored)
    requires f.chains != [] && e in Entries(f)
    ensures e.chain in f.chains && e == Entry(f, e.chain)
  {
    var i :| 0 <= i < |f.chains| && Entries(f)[i] == e;
    assert f.chains[i] == e.chain;
  }

  function ChainsOf(es: seq<Scored>): (r: seq<string>)
    ensures |r| == |es| && forall i | 0 <= i < |es| :: r[i] == es[i].chain
  {
    seq(|es|, i requires 0 <= i < |es| => es[i].chain)
  }

  ghost predicate EntriesOf(f: Field, es: seq<Scored>)
    requires f.chains != []
  {
    forall i | 0 <= i < |es| :: es[i].chain in f.chains && es[i] == Entry(f, es[i].chain)
  }

  lemma {:induction false} PermutedChains(f: Field, es: seq<Scored>)
    requires f.chains != [] && Permuted(Entries(f), es)
    ensures EntriesOf(f, es) && forall c | c in f.chains :: c in ChainsOf(es)
  {
    forall i | 0 <= i < |es| ensures es[i].chain in f.chains && es[i] == Entry(f, es[i].chain) {
      assert es[i] in es;
      ListedEntry(f, es[i]);
    }
    forall c | c in f.chains ensures c in ChainsOf(es) {
      EntryListed(f, c);
      var i :| 0 <= i < |es| && es[i] == Entry(f, c);
      assert ChainsOf(es)[i] == c;
    }
  }

  lemma {:induction false} ChainsReordered(f: Field, es: seq<Scored>)
    requires f.chains != [] && EntriesOf(f, es) && Distinct(es) && forall c | c in f.chains :: c in ChainsOf(es)
    ensures var g := f.(chains := ChainsOf(es)); Reordered(f, g) && g.chains != [] && Distinct(g.chains)
  {
    var names := ChainsOf(es);
    assert f.chains[0] in names;
    forall c | c in names ensures c in f.chains {
      var i :| 0 <= i < |es| && names[i] == c;
    }
    forall i, j | 0 <= i < j < |es| ensures names[i] != names[j] {
      assert es[i] == Entry(f, names[i]) && es[j] == Entry(f, names[j]);
    }
  }

  lemma {:induction false} EntriesAreThese(f: Field, g: Field, es: seq<Scored>)
    requires f.chains != [] && g.chains != [] && Reordered(f, g) && EntriesOf(f, es) && g.chains == ChainsOf(es)
    ensures Entries(g) == es
  {
    forall i | 0 <= i < |es| ensures Entries(g)[i] == es[i] {
      EntryReordered(f, g, es[i].chain);
    }
  }

  /** Every other order of the entries is that of a reordered run. */
  lemma {:induction false} PermutedEntries(f: Field, es: seq<Scored>)
    requires f.chains != [] && Permuted(Entries(f), es)
    ensures var g := f.(chains := ChainsOf(es));
            Reordered(f, g) && g.chains != [] && Distinct(g.chains) && Entries(g) == es
  {
    PermutedChains(f, es);
    ChainsReordered(f, es);
    EntriesAreThese(f, f.(chains := ChainsOf(es)), es);
  }

  lemma {:induction false} ReorderedEntries(f: Field, g: Field)
    requires f.chains != [] && g.chains != [] && Reordered(f, g) && Distinct(f.chains) && Distinct(g.chains)
    ensures Permuted(Entries(f), Entries(g))
  {
    EntriesDistinct(f);
    EntriesDistinct(g);
    EntriesReordered(f, g);
    EntriesReordered(g, f);
  }

  lemma {:induction false} EntriesNamed(f: Field)
    requires f.chains != []
    ensures forall a, b | a in Entries(f) && b in Entries(f) && a != b :: EngineKey(a).chain != EngineKey(b).chain
  {
    forall a, b | a in Entries(f) && b in Entries(f) && a != b ensures a.chain != b.chain {
      ListedEntry(f, a);
      ListedEntry(f, b);
    }
  }

  /**
    The order of allowedChains makes no difference to the engine's ranking of distinct chains
    exactly when its comparator puts no three of them before one another in a circle.
   */
  lemma {:induction false} RankingIgnoresOrderExactly(locale: Locale, f: Field)
    requires LocaleOrder(locale) && f.chains != [] && Distinct(f.chains)
    ensures IgnoresOrder(locale, f) <==> NoCircle(locale, f)
  {
    var cmp, es := By(locale, EngineKey), Entries(f);
    EntriesNamed(f);
    EntriesDistinct(f);
    ByAntisymmetric(locale, EngineKey, Elements(es));
    SortIgnoresOrderExactly(cmp, es);
    if NoCircle(locale, f) {
      forall g | Reordered(f, g) && g.chains != [] && Distinct(g.chains)
          ensures RankedBy(locale, g) == RankedBy(locale, f) {
        ReorderedEntries(f, g);
      }
    } else {
      var fs :| Permuted(es, fs) && SortBy(cmp, fs) != SortBy(cmp, es);
      PermutedEntries(f, fs);
      var g := f.(chains := ChainsOf(fs));
      assert RankedBy(locale, g) != RankedBy(locale, f);
    }
  }

  lemma {:induction false} NoNearTiesNoCircle(locale: Locale, f: Field)
    requires LocaleOrder(locale) && f.chains != [] && NoNearTies(f)
    ensures NoCircle(locale, f)
  {
    var cmp, dom := By(locale, EngineKey), Elements(Entries(f));
    EntriesSeparated(f);
    ByConsistent(locale, EngineKey, dom);
    ConsistentIsAcyclic(cmp, dom);
  }

  /** In particular it makes none when chains do not nearly tie. */
  lemma {:induction false} RankingIgnoresOrder(locale: Locale, f: Field, g: Field)
    requires LocaleOrder(locale) && f.chains != [] && g.chains != [] && Reordered(f, g)
    requires Distinct(f.chains) && Distinct(g.chains) && NoNearTies(f)
    ensures RankedBy(locale, f) == RankedBy(locale, g)
  {
    NoNearTiesNoCircle(locale, f);
    RankingIgnoresOrderExactly(locale, f);
  }

  /** The inlined copy's ranking never depends on the order of distinct chains. */
  lemma {:induction false} InlineRankingIgnoresOrder(locale: Locale, f: Field, g: Field)
    requires LocaleOrder(locale) && f.chains != [] && g.chains != [] && Reordered(f, g)
    requires Distinct(f.chains) && Distinct(g.chains) && f.rule == INLINE
    ensures RankedInline(locale, f) == RankedInline(locale, g)
  {
    InlineEntriesSeparated(f);
    ReorderedEntries(f, g);
    SortIgnoresOrder(locale, InlineKey, Entries(f), Entries(g));
  }
}
