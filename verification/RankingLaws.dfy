/** What the two rankings promise about better chains, about each other and about activation. */
module RankingLaws {
  import opened Wrappers
  import opened Sorting
  import opened Scoring
  import opened Ranking

  // ----- Positions -----

  lemma {:induction false} RankedEntry(locale: Locale, f: Field, i: nat)
    requires f.chains != [] && i < |RankedBy(locale, f)|
    ensures var e := RankedBy(locale, f)[i]; e.chain in f.chains && e == Entry(f, e.chain)
  {
    SortMembers(By(locale, EngineKey), Entries(f));
    assert RankedBy(locale, f)[i] in RankedBy(locale, f);
    ListedEntry(f, RankedBy(locale, f)[i]);
  }

  lemma {:induction false} InlineRankedEntry(locale: Locale, f: Field, i: nat)
    requires f.chains != [] && i < |RankedInline(locale, f)|
    ensures var e := RankedInline(locale, f)[i]; e.chain in f.chains && e == Entry(f, e.chain)
  {
    SortMembers(By(locale, InlineKey), Entries(f));
    assert RankedInline(locale, f)[i] in RankedInline(locale, f);
    ListedEntry(f, RankedInline(locale, f)[i]);
  }

  /** Earlier in the engine's ranking means before in its order of keys. */
  lemma {:induction false} EarlierIsBefore(locale: Locale, f: Field, i: nat, j: nat)
    requires LocaleOrder(locale) && f.chains != [] && Distinct(f.chains) && NoNearTies(f)
    requires i < j < |RankedBy(locale, f)|
    ensures Before(locale, EngineKey(RankedBy(locale, f)[i]), EngineKey(RankedBy(locale, f)[j]))
  {
    var r := RankedBy(locale, f);
    RankedEntry(locale, f, i);
    RankedEntry(locale, f, j);
    RankingIsSorted(locale, f);
    RankingDistinct(locale, f, i, j);
    assert By(locale, EngineKey)(r[i], r[j]) < 0.0;
    EngineKeysApart(f, r[i].chain, r[j].chain);
    EngineKeysApart(f, r[j].chain, r[i].chain);
    CompareIsBefore(locale, EngineKey(r[i]), EngineKey(r[j]));
  }

  lemma {:induction false} RankingDistinct(locale: Locale, f: Field, i: nat, j: nat)
    requires LocaleOrder(locale) && f.chains != [] && Distinct(f.chains) && NoNearTies(f)
    requires i < j < |RankedBy(locale, f)|
    ensures RankedBy(locale, f)[i].chain != RankedBy(locale, f)[j].chain
  {
    RankedEntry(locale, f, i);
    RankedEntry(locale, f, j);
    EntriesSeparated(f);
    EntriesDistinct(f);
    SortIsSorted(locale, EngineKey, Entries(f));
  }

  lemma {:induction false} InlineRankingDistinct(locale: Locale, f: Field, i: nat, j: nat)
    requires LocaleOrder(locale) && f.chains != [] && Distinct(f.chains) && f.rule == INLINE
    requires i < j < |RankedInline(locale, f)|
    ensures RankedInline(locale, f)[i].chain != RankedInline(locale, f)[j].chain
  {
    InlineRankedEntry(locale, f, i);
    InlineRankedEntry(locale, f, j);
    InlineEntriesSeparated(f);
    EntriesDistinct(f);
    SortIsSorted(locale, InlineKey, Entries(f));
  }

  lemma {:induction false} InlineEarlierIsBefore(locale: Locale, f: Field, i: nat, j: nat)
    requires LocaleOrder(locale) && f.chains != [] && Distinct(f.chains) && f.rule == INLINE
    requires i < j < |RankedInline(locale, f)|
    ensures Before(locale, InlineKey(RankedInline(locale, f)[i]), InlineKey(RankedInline(locale, f)[j]))
  {
    var r := RankedInline(locale, f);
    InlineRankedEntry(locale, f, i);
    InlineRankedEntry(locale, f, j);
    InlineRankingIsSorted(locale, f);
    InlineRankingDistinct(locale, f, i, j);
    assert By(locale, InlineKey)(r[i], r[j]) < 0.0;
    InlineKeysApart(f, r[i].chain, r[j].chain);
    InlineKeysApart(f, r[j].chain, r[i].chain);
    CompareIsBefore(locale, InlineKey(r[i]), InlineKey(r[j]));
  }

  /** What the order says of two positions, names aside. */
  ghost predicate NotWorseRanked(a: Key, b: Key) {
    && a.score >= b.score
    && (a.score == b.score ==> a.reliability >= b.reliability)
    && (a.score == b.score && a.reliability == b.reliability ==> a.latency <= b.latency)
  }

  ghost predicate RankedByKey(key: Scored -> Key, r: seq<Scored>) {
    forall i, j | 0 <= i < j < |r| :: NotWorseRanked(key(r[i]), key(r[j]))
  }

  lemma {:induction false} EngineRanks(locale: Locale, f: Field)
    requires LocaleOrder(locale) && f.chains != [] && Distinct(f.chains) && NoNearTies(f)
    ensures RankedByKey(EngineKey, RankedBy(locale, f))
  {
    var r := RankedBy(locale, f);
    forall i, j | 0 <= i < j < |r| ensures NotWorseRanked(EngineKey(r[i]), EngineKey(r[j])) {
      EarlierIsBefore(locale, f, i, j);
    }
  }

  lemma {:induction false} InlineRanks(locale: Locale, f: Field)
    requires LocaleOrder(locale) && f.chains != [] && Distinct(f.chains) && f.rule == INLINE
    ensures RankedByKey(InlineKey, RankedInline(locale, f))
  {
    var r := RankedInline(locale, f);
    forall i, j | 0 <= i < j < |r| ensures NotWorseRanked(InlineKey(r[i]), InlineKey(r[j])) {
      InlineEarlierIsBefore(locale, f, i, j);
    }
  }

  // ----- Scores fall -----

  ghost predicate ScoresFall(es: seq<Scored>) {
    forall i, j | 0 <= i < j < |es| :: es[i].score >= es[j].score
  }

  /** Different scores decide the comparison, whatever the tie-break does. */
  ghost predicate ScoreFirst(cmp: (Scored, Scored) -> real, dom: iset<Scored>) {
    forall a, b | a in dom && b in dom && a.score > b.score :: cmp(a, b) < 0.0 && cmp(b, a) > 0.0
  }

  lemma {:induction false} InsertFalls(cmp: (Scored, Scored) -> real, e: Scored, es: seq<Scored>, dom: iset<Scored>)
    requires ScoreFirst(cmp, dom) && e in dom && Within(es, dom) && ScoresFall(es)
    ensures ScoresFall(Insert(cmp, e, es))
  {
    if es == [] {
    } else if cmp(e, es[0]) <= 0.0 {
      assert e.score >= es[0].score;
    } else {
      assert es[0].score >= e.score;
      InsertFalls(cmp, e, es[1..], dom);
      InsertMembers(cmp, e, es[1..]);
      var rest := Insert(cmp, e, es[1..]);
      forall j | 0 <= j < |rest| ensures es[0].score >= rest[j].score {
        assert rest[j] in rest;
        if rest[j] != e {
          var k :| 0 <= k < |es[1..]| && es[1..][k] == rest[j];
          assert es[k + 1] == rest[j];
        }
      }
    }
  }

  lemma {:induction false} SortFalls(cmp: (Scored, Scored) -> real, es: seq<Scored>, dom: iset<Scored>)
    requires ScoreFirst(cmp, dom) && Within(es, dom)
    ensures ScoresFall(SortBy(cmp, es))
  {
    if es != [] {
      SortFalls(cmp, es[1..], dom);
      SortMembers(cmp, es[1..]);
      var rest := SortBy(cmp, es[1..]);
      forall i | 0 <= i < |rest| ensures rest[i] in dom {
        assert rest[i] in es[1..];
      }
      InsertFalls(cmp, es[0], rest, dom);
    }
  }

  lemma {:induction false} ByScoreFirst(locale: Locale, key: Scored -> Key, dom: iset<Scored>)
    requires forall e | e in dom :: IsMicro(e.score) && key(e).score == e.score
    ensures ScoreFirst(By(locale, key), dom)
  {
    forall a, b | a in dom && b in dom && a.score > b.score
      ensures By(locale, key)(a, b) < 0.0 && By(locale, key)(b, a) > 0.0
    {
      MicrosTie(a.score, b.score);
      MicrosTie(b.score, a.score);
    }
  }

  /** Scores fall along the engine's ranking, for every locale and every list of chains. */
  lemma {:induction false} EngineFalls(locale: Locale, f: Field)
    requires f.chains != []
    ensures ScoresFall(RankedBy(locale, f))
  {
    EntriesFall(locale, EngineKey, f);
  }

  lemma {:induction false} InlineFalls(locale: Locale, f: Field)
    requires f.chains != []
    ensures ScoresFall(RankedInline(locale, f))
  {
    EntriesFall(locale, InlineKey, f);
  }

  lemma {:induction false} EntriesFall(locale: Locale, key: Scored -> Key, f: Field)
    requires f.chains != [] && forall e :: key(e).score == e.score
    ensures ScoresFall(SortBy(By(locale, key), Entries(f)))
  {
    var dom := Elements(Entries(f));
    forall e | e in dom ensures IsMicro(e.score) {
      ListedEntry(f, e);
      ScoresAreMicros(f, e.chain);
    }
    ByScoreFirst(locale, key, dom);
    ElementsWithin(Entries(f));
    SortFalls(By(locale, key), Entries(f), dom);
  }

  // ----- Better chains -----

  lemma {:induction false} RankedInOrder(locale: Locale, f: Field, i: nat, j: nat)
    requires LocaleOrder(locale) && f.chains != [] && Distinct(f.chains) && NoCircle(locale, f) && i < j < |f.chains|
    ensures CompareKeys(locale, EngineKey(RankedBy(locale, f)[i]), EngineKey(RankedBy(locale, f)[j])) < 0.0
  {
    var cmp, es := By(locale, EngineKey), Entries(f);
    EntriesNamed(f);
    EntriesDistinct(f);
    ByAntisymmetric(locale, EngineKey, Elements(es));
    AcyclicIsConsistent(cmp, Elements(es));
    ElementsWithin(es);
    SortByIsSort(cmp, es, Elements(es));
    assert cmp(RankedBy(locale, f)[i], RankedBy(locale, f)[j]) < 0.0;
  }

  lemma {:induction false} BetterNotAfter(locale: Locale, x: Scored, y: Scored)
    requires CompareKeys(locale, EngineKey(y), EngineKey(x)) < 0.0 && IsMicro(x.score) && IsMicro(y.score)
    requires x.score >= y.score && AtLeastAsGood(x.raws, y.raws)
    ensures x.score == y.score && Tie(x.raws.reliability, y.raws.reliability) && Tie(x.raws.latency, y.raws.latency)
  {
    MicrosTie(y.score, x.score);
  }

  /**
    In the engine's ranking, wherever its comparator is not circular, a chain at least as good
    on all four metrics comes first unless score, reliability and latency all tie.
   */
  lemma {:induction false} BetterRanksEarlier(locale: Locale, f: Field, i: nat, j: nat)
    requires LocaleOrder(locale) && f.chains != [] && Distinct(f.chains) && NoCircle(locale, f) && f.rule == ENGINE
    requires i < |f.chains| && j < |f.chains| && i != j
    requires AtLeastAsGood(RankedBy(locale, f)[i].raws, RankedBy(locale, f)[j].raws)
    ensures var x, y := RankedBy(locale, f)[i], RankedBy(locale, f)[j];
            i < j || (x.score == y.score && Tie(x.raws.reliability, y.raws.reliability)
                && Tie(x.raws.latency, y.raws.latency))
  {
    var r := RankedBy(locale, f);
    if j < i {
      RankedEntry(locale, f, i);
      RankedEntry(locale, f, j);
      AllRawsInBounds(f, r[i].chain);
      BetterScoresNoLower(AllBounds(f), r[i].raws, r[j].raws);
      ScoresAreMicros(f, r[i].chain);
      ScoresAreMicros(f, r[j].chain);
      RankedInOrder(locale, f, j, i);
      BetterNotAfter(locale, r[i], r[j]);
    }
  }

  /** Without near ties, the raw reliabilities and latencies are then equal. */
  lemma {:induction false} BetterRanksEarlierUnlessEqual(locale: Locale, f: Field, i: nat, j: nat)
    requires LocaleOrder(locale) && f.chains != [] && Distinct(f.chains) && NoNearTies(f) && f.rule == ENGINE
    requires i < |f.chains| && j < |f.chains| && i != j
    requires AtLeastAsGood(RankedBy(locale, f)[i].raws, RankedBy(locale, f)[j].raws)
    ensures var x, y := RankedBy(locale, f)[i], RankedBy(locale, f)[j];
            i < j || (x.score == y.score && x.raws.reliability == y.raws.reliability
                && x.raws.latency == y.raws.latency)
  {
    NoNearTiesNoCircle(locale, f);
    BetterRanksEarlier(locale, f, i, j);
    RankedEntry(locale, f, i);
    RankedEntry(locale, f, j);
  }

  /** In the copy's ranking it comes first unless all four components tie. */
  lemma {:induction false} InlineBetterRanksEarlier(locale: Locale, f: Field, i: nat, j: nat)
    requires LocaleOrder(locale) && f.chains != [] && Distinct(f.chains) && f.rule == INLINE
    requires i < |RankedInline(locale, f)| && j < |RankedInline(locale, f)| && i != j
    requires AtLeastAsGood(RankedInline(locale, f)[i].raws, RankedInline(locale, f)[j].raws)
    ensures i < j || RankedInline(locale, f)[i].components == RankedInline(locale, f)[j].components
  {
    var r := RankedInline(locale, f);
    if j < i {
      InlineRankedEntry(locale, f, i);
      InlineRankedEntry(locale, f, j);
      InlineEarlierIsBefore(locale, f, j, i);
      ComponentsInlineMonotonic(AllBounds(f), r[i].raws, r[j].raws);
      ComponentsInlineAreMicros(AllBounds(f), r[i].raws);
      ComponentsInlineAreMicros(AllBounds(f), r[j].raws);
      ScoreMonotonic(r[i].components, r[j].components);
      DominatedTie(r[i].components, r[j].components);
    }
  }

  // ----- The two copies -----

  function EngineRun(f: Field): Field {
    f.(rule := ENGINE)
  }

  function CopyRun(f: Field): Field {
    f.(rule := INLINE)
  }

  lemma {:induction false} RuleAside(f: Field, rule: Rule, chain: string)
    requires f.chains != []
    ensures var g := f.(rule := rule); AllBounds(g) == AllBounds(f) && Raws(g, chain) == Raws(f, chain)
  {
    var g := f.(rule := rule);
    forall k: Metric ensures BoundsOf(g, k) == BoundsOf(f, k) {
      assert Values(g, k) == Values(f, k);
    }
  }

  lemma {:induction false} CopyEntries(f: Field, chain: string)
    requires f.chains != []
    ensures Entry(EngineRun(f), chain) == ScoredBy(ENGINE, AllBounds(f), chain, Raws(f, chain))
    ensures Entry(CopyRun(f), chain) == ScoredBy(INLINE, AllBounds(f), chain, Raws(f, chain))
  {
    RuleAside(f, ENGINE, chain);
    RuleAside(f, INLINE, chain);
  }

  ghost predicate SameEntries(f: Field)
    requires f.chains != []
  {
    forall chain | chain in f.chains :: Entry(EngineRun(f), chain) == Entry(CopyRun(f), chain)
  }

  lemma {:induction false} WorstChainDiffers(f: Field, k: Metric) returns (chain: string)
    requires f.chains != [] && BoundsOf(f, k).max - BoundsOf(f, k).min == EPSILON
    ensures chain in f.chains
    ensures Component(BoundsOf(f, k), Raws(f, chain).Get(k), k) != ComponentInline(BoundsOf(f, k), Raws(f,
            chain).Get(k), k)
  {
    var b := BoundsOf(f, k);
    var worst := if LowerBetter(k) then b.max else b.min;
    var i :| 0 <= i < |f.chains| && Values(f, k)[i] == worst;
    chain := f.chains[i];
    ComponentDiffers(b, k);
  }

  lemma {:induction false} ComponentsGet(bs: Profile<Bounds>, raws: Profile<real>, k: Metric)
    ensures Components(bs, raws).Get(k) == Component(bs.Get(k), raws.Get(k), k)
    ensures ComponentsInline(bs, raws).Get(k) == ComponentInline(bs.Get(k), raws.Get(k), k)
  {
  }

  lemma {:induction false} RulesDiffer(bs: Profile<Bounds>, raws: Profile<real>, k: Metric)
    requires Component(bs.Get(k), raws.Get(k), k) != ComponentInline(bs.Get(k), raws.Get(k), k)
    ensures ENGINE(bs, raws) != INLINE(bs, raws)
  {
    ComponentsGet(bs, raws, k);
  }

  lemma {:induction false} EpsilonRangeDiffers(f: Field, k: Metric)
    requires f.chains != [] && BoundsOf(f, k).max - BoundsOf(f, k).min == EPSILON
    ensures !SameEntries(f)
  {
    var chain := WorstChainDiffers(f, k);
    BoundsGet(f, k);
    RulesDiffer(AllBounds(f), Raws(f, chain), k);
    CopyEntries(f, chain);
    assert Entry(EngineRun(f), chain).components != Entry(CopyRun(f), chain).components;
  }

  lemma {:induction false} EntryAgrees(f: Field, chain: string)
    requires chain in f.chains && NoRangeIsEpsilon(AllBounds(f))
    ensures Entry(EngineRun(f), chain) == Entry(CopyRun(f), chain)
  {
    AllRawsInBounds(f, chain);
    ComponentsAgree(AllBounds(f), Raws(f, chain));
    CopyEntries(f, chain);
  }

  /**
    The engine and its inlined copy give every chain the same components and score exactly
    when no metric's range is exactly epsilon.
   */
  lemma {:induction false} CopiesAgreeExactly(f: Field)
    requires f.chains != []
    ensures SameEntries(f) <==> NoRangeIsEpsilon(AllBounds(f))
  {
    if NoRangeIsEpsilon(AllBounds(f)) {
      forall chain | chain in f.chains ensures Entry(EngineRun(f), chain) == Entry(CopyRun(f), chain) {
        EntryAgrees(f, chain);
      }
    } else {
      var k: Metric :| AllBounds(f).Get(k).max - AllBounds(f).Get(k).min == EPSILON;
      BoundsGet(f, k);
      EpsilonRangeDiffers(f, k);
    }
  }

  lemma {:induction false} SameEntryAt(locale: Locale, f: Field, i: nat, p: nat)
    requires f.chains != [] && NoRangeIsEpsilon(AllBounds(f)) && i < |f.chains| && p < |f.chains|
    requires RankedBy(locale, EngineRun(f))[i].chain == RankedInline(locale, CopyRun(f))[p].chain
    ensures RankedBy(locale, EngineRun(f))[i] == RankedInline(locale, CopyRun(f))[p]
  {
    RankedEntry(locale, EngineRun(f), i);
    InlineRankedEntry(locale, CopyRun(f), p);
    EntryAgrees(f, RankedBy(locale, EngineRun(f))[i].chain);
  }

  lemma {:induction false} ListsOrderAlike(r: seq<Scored>, s: seq<Scored>, i: nat, j: nat, p: nat, q: nat)
    requires ScoresFall(r) && ScoresFall(s) && i < |r| && j < |r| && p < |s| && q < |s|
    requires r[i] == s[p] && r[j] == s[q] && r[i].score != r[j].score
    ensures i < j <==> p < q
  {
  }

  /**
    Then they order any two chains with different scores the same way, even where near ties
    make a comparator circular and where chains are repeated.
   */
  lemma {:induction false} CopiesOrderAlike(locale: Locale, f: Field, i: nat, j: nat, p: nat, q: nat)
    requires f.chains != [] && NoRangeIsEpsilon(AllBounds(f))
    requires i < |f.chains| && j < |f.chains| && p < |f.chains| && q < |f.chains|
    requires RankedBy(locale, EngineRun(f))[i].chain == RankedInline(locale, CopyRun(f))[p].chain
    requires RankedBy(locale, EngineRun(f))[j].chain == RankedInline(locale, CopyRun(f))[q].chain
    requires RankedBy(locale, EngineRun(f))[i].score != RankedBy(locale, EngineRun(f))[j].score
    ensures i < j <==> p < q
  {
    SameEntryAt(locale, f, i, p);
    SameEntryAt(locale, f, j, q);
    EngineFalls(locale, EngineRun(f));
    InlineFalls(locale, CopyRun(f));
    ListsOrderAlike(RankedBy(locale, EngineRun(f)), RankedInline(locale, CopyRun(f)), i, j, p, q);
  }

  lemma {:induction false} ListsOrderApart(r: seq<Scored>, s: seq<Scored>, i: nat, j: nat, p: nat, q: nat)
    requires RankedByKey(EngineKey, r) && RankedByKey(InlineKey, s) && i < |r| && j < |r| && p < |s| && q < |s|
    requires r[i] == s[p] && r[j] == s[q] && r[i].score == r[j].score
    requires r[i].raws.reliability == r[j].raws.reliability && r[i].components.reliability
            == r[j].components.reliability
    requires r[i].raws.latency < r[j].raws.latency && r[i].components.latency > r[j].components.latency
    ensures i < j && q < p
  {
    assert EngineKey(r[i]).latency < EngineKey(r[j]).latency && InlineKey(s[p]).latency > InlineKey(s[q]).latency;
  }

  /**
    Of two chains with the same score and reliability, the engine puts the faster one first;
    its copy compares weighted latencies, which are higher for faster chains, and puts it last.
   */
  lemma {:induction false} CopiesBreakLatencyTiesApart(locale: Locale, f: Field, i: nat, j: nat, p: nat, q: nat)
    requires LocaleOrder(locale) && f.chains != [] && Distinct(f.chains)
    requires NoNearTies(EngineRun(f)) && NoRangeIsEpsilon(AllBounds(f))
    requires i < |f.chains| && j < |f.chains| && p < |f.chains| && q < |f.chains|
    requires RankedBy(locale, EngineRun(f))[i].chain == RankedInline(locale, CopyRun(f))[p].chain
    requires RankedBy(locale, EngineRun(f))[j].chain == RankedInline(locale, CopyRun(f))[q].chain
    requires var x, y := RankedBy(locale, EngineRun(f))[i], RankedBy(locale, EngineRun(f))[j];
             && x.score == y.score && x.raws.reliability == y.raws.reliability
             && x.raws.latency < y.raws.latency && x.components.latency != y.components.latency
    ensures i < j && q < p
  {
    SameEntryAt(locale, f, i, p);
    SameEntryAt(locale, f, j, q);
    EngineRanks(locale, EngineRun(f));
    InlineRanks(locale, CopyRun(f));
    TiedComponents(locale, EngineRun(f), i, j);
    ListsOrderApart(RankedBy(locale, EngineRun(f)), RankedInline(locale, CopyRun(f)), i, j, p, q);
  }

  lemma {:induction false} TiedRules(bs: Profile<Bounds>, x: Profile<real>, y: Profile<real>)
    requires InBounds(bs.latency, x.latency) && x.reliability == y.reliability && x.latency < y.latency
    ensures ENGINE(bs, x).reliability == ENGINE(bs, y).reliability && ENGINE(bs, x).latency >= ENGINE(bs, y).latency
  {
    ComponentMonotonic(bs.latency, x.latency, y.latency, Latency);
  }

  lemma {:induction false} TiedComponents(locale: Locale, f: Field, i: nat, j: nat)
    requires f.chains != [] && f.rule == ENGINE && i < |f.chains| && j < |f.chains|
    requires RankedBy(locale, f)[i].raws.reliability == RankedBy(locale, f)[j].raws.reliability
    requires RankedBy(locale, f)[i].raws.latency < RankedBy(locale, f)[j].raws.latency
    ensures RankedBy(locale, f)[i].components.reliability == RankedBy(locale, f)[j].components.reliability
    ensures RankedBy(locale, f)[i].components.latency >= RankedBy(locale, f)[j].components.latency
  {
    var x, y := RankedBy(locale, f)[i], RankedBy(locale, f)[j];
    RankedEntry(locale, f, i);
    RankedEntry(locale, f, j);
    RawsInBounds(f, x.chain, Latency);
    TiedRules(AllBounds(f), x.raws, y.raws);
  }

  lemma {:induction false} InlineLatencyFalls(bs: Profile<Bounds>, x: Profile<real>, y: Profile<real>)
    requires x.latency <= y.latency
    ensures INLINE(bs, x).latency >= INLINE(bs, y).latency
  {
    ComponentInlineMonotonic(bs.latency, x.latency, y.latency, Latency);
  }

  /** In the copy's ranking, of two chains tied on score and weighted reliability the slower one comes first. */
  lemma {:induction false} CopyPutsSlowerFirst(locale: Locale, f: Field, p: nat, q: nat)
    requires LocaleOrder(locale) && f.chains != [] && Distinct(f.chains) && f.rule == INLINE
    requires p < |f.chains| && q < |f.chains|
    requires var x, y := RankedInline(locale, f)[p], RankedInline(locale, f)[q];
             && x.score == y.score && x.components.reliability == y.components.reliability
             && x.components.latency < y.components.latency
    ensures p < q && RankedInline(locale, f)[p].raws.latency > RankedInline(locale, f)[q].raws.latency
  {
    var r := RankedInline(locale, f);
    InlineRanks(locale, f);
    InlineRankedEntry(locale, f, p);
    InlineRankedEntry(locale, f, q);
    if r[p].raws.latency <= r[q].raws.latency {
      InlineLatencyFalls(AllBounds(f), r[p].raws, r[q].raws);
    }
  }

  // ----- When the copies list all chains in the same order -----

  /** On every two chains the two comparators say the same. */
  ghost predicate AgreeOnPairs(locale: Locale, f: Field)
    requires f.chains != []
  {
    forall a, b | a in f.chains && b in f.chains && a != b ::
      EngineFirst(locale, EngineRun(f), a, b) <==> InlineFirst(locale, CopyRun(f), a, b)
  }

  predicate EngineFirst(locale: Locale, f: Field, a: string, b: string)
    requires f.chains != []
  {
    CompareKeys(locale, EngineKey(Entry(f, a)), EngineKey(Entry(f, b))) < 0.0
  }

  predicate InlineFirst(locale: Locale, f: Field, a: string, b: string)
    requires f.chains != []
  {
    CompareKeys(locale, InlineKey(Entry(f, a)), InlineKey(Entry(f, b))) < 0.0
  }

  lemma {:induction false} EnginePositions(locale: Locale, f: Field, i: nat, j: nat)
    requires LocaleOrder(locale) && f.chains != [] && Distinct(f.chains) && NoCircle(locale, f) && i < j < |f.chains|
    ensures var r := RankedBy(locale, f);
            && r[i].chain in f.chains && r[j].chain in f.chains && r[i].chain != r[j].chain
            && EngineFirst(locale, f, r[i].chain, r[j].chain) && !EngineFirst(locale, f, r[j].chain, r[i].chain)
  {
    var r := RankedBy(locale, f);
    RankedEntry(locale, f, i);
    RankedEntry(locale, f, j);
    RankedInOrder(locale, f, i, j);
    EntriesDistinct(f);
    SortDistinct(By(locale, EngineKey), Entries(f));
    CompareAntisymmetric(locale, EngineKey(r[i]), EngineKey(r[j]));
  }

  lemma {:induction false} InlinePositions(locale: Locale, f: Field, i: nat, j: nat)
    requires LocaleOrder(locale) && f.chains != [] && Distinct(f.chains) && f.rule == INLINE && i < j < |f.chains|
    ensures var r := RankedInline(locale, f);
            && r[i].chain in f.chains && r[j].chain in f.chains && r[i].chain != r[j].chain
            && InlineFirst(locale, f, r[i].chain, r[j].chain) && !InlineFirst(locale, f, r[j].chain, r[i].chain)
  {
    var r := RankedInline(locale, f);
    InlineRankedEntry(locale, f, i);
    InlineRankedEntry(locale, f, j);
    InlineRankingIsSorted(locale, f);
    InlineRankingDistinct(locale, f, i, j);
    assert By(locale, InlineKey)(r[i], r[j]) < 0.0;
    CompareAntisymmetric(locale, InlineKey(r[i]), InlineKey(r[j]));
  }

  /** A list of all names in which `first` decides every two positions. */
  ghost predicate ListedBy(names: seq<string>, chains: seq<string>, first: (string, string) -> bool) {
    && |names| == |chains| && (forall c :: c in names <==> c in chains)
    && forall i, j | 0 <= i < j < |names| :: first(names[i], names[j]) && !first(names[j], names[i])
  }

  lemma {:induction false} SameListing(names: seq<string>, others: seq<string>, first: (string, string) -> bool)
    requires |names| == |others| && forall c :: c in names <==> c in others
    requires forall i, j | 0 <= i < j < |names| :: first(names[i], names[j]) && !first(names[j], names[i])
    requires forall i, j | 0 <= i < j < |others| :: first(others[i], others[j]) && !first(others[j], others[i])
    ensures names == others
  {
    if names != [] {
      SameFirst(names, others, first);
      forall c ensures c in names[1..] <==> c in others[1..] {
        NamesTail(names, first, c);
        NamesTail(others, first, c);
      }
      SameListing(names[1..], others[1..], first);
      assert names == [names[0]] + names[1..] && others == [others[0]] + others[1..];
    }
  }

  lemma {:induction false} NamesTail(names: seq<string>, first: (string, string) -> bool, c: string)
    requires names != []
    requires forall i, j | 0 <= i < j < |names| :: first(names[i], names[j]) && !first(names[j], names[i])
    ensures c in names[1..] <==> c in names && c != names[0]
  {
    assert names == [names[0]] + names[1..];
    if c in names[1..] {
      var k :| 0 <= k < |names[1..]| && names[1..][k] == c;
      assert first(names[0], names[k + 1]) && !first(names[k + 1], names[0]);
    }
  }

  lemma {:induction false} SameFirst(names: seq<string>, others: seq<string>, first: (string, string) -> bool)
    requires names != [] && others != [] && forall c :: c in names <==> c in others
    requires forall i, j | 0 <= i < j < |names| :: first(names[i], names[j]) && !first(names[j], names[i])
    requires forall i, j | 0 <= i < j < |others| :: first(others[i], others[j]) && !first(others[j], others[i])
    ensures names[0] == others[0]
  {
    HeadFirst(names, first, others[0]);
    HeadFirst(others, first, names[0]);
  }

  lemma {:induction false} HeadFirst(names: seq<string>, first: (string, string) -> bool, c: string)
    requires c in names
    requires forall i, j | 0 <= i < j < |names| :: first(names[i], names[j]) && !first(names[j], names[i])
    ensures c == names[0] || (first(names[0], c) && !first(c, names[0]))
  {
    var k :| 0 <= k < |names| && names[k] == c;
  }

  lemma {:induction false} EngineListed(locale: Locale, f: Field)
    requires LocaleOrder(locale) && f.chains != [] && Distinct(f.chains) && NoCircle(locale, f)
    ensures var first := (a: string, b: string) => EngineFirst(locale, f, a, b);
            ListedBy(ChainsOf(RankedBy(locale, f)), f.chains, first)
  {
    var names := ChainsOf(RankedBy(locale, f));
    SortMembers(By(locale, EngineKey), Entries(f));
    NamesOfEntries(f, RankedBy(locale, f));
    forall i, j | 0 <= i < j < |names|
      ensures EngineFirst(locale, f, names[i], names[j]) && !EngineFirst(locale, f, names[j], names[i])
    {
      EnginePositions(locale, f, i, j);
    }
  }

  lemma {:induction false} InlineListed(locale: Locale, f: Field)
    requires LocaleOrder(locale) && f.chains != [] && Distinct(f.chains) && f.rule == INLINE
    ensures var first := (a: string, b: string) => InlineFirst(locale, f, a, b);
            ListedBy(ChainsOf(RankedInline(locale, f)), f.chains, first)
  {
    var names := ChainsOf(RankedInline(locale, f));
    SortMembers(By(locale, InlineKey), Entries(f));
    NamesOfEntries(f, RankedInline(locale, f));
    forall i, j | 0 <= i < j < |names|
      ensures InlineFirst(locale, f, names[i], names[j]) && !InlineFirst(locale, f, names[j], names[i])
    {
      InlinePositions(locale, f, i, j);
    }
  }

  lemma {:induction false} NamesOfEntries(f: Field, es: seq<Scored>)
    requires f.chains != [] && forall e :: e in es <==> e in Entries(f)
    ensures forall c :: c in ChainsOf(es) <==> c in f.chains
  {
    forall c ensures c in ChainsOf(es) <==> c in f.chains {
      if c in ChainsOf(es) {
        var i :| 0 <= i < |es| && ChainsOf(es)[i] == c;
        assert es[i] in es;
        ListedEntry(f, es[i]);
      }
      if c in f.chains {
        EntryListed(f, c);
        var i :| 0 <= i < |es| && es[i] == Entry(f, c);
        assert ChainsOf(es)[i] == c;
      }
    }
  }

  /** Two listings of the same names are equal exactly when they are listed by orders that agree on every two names. */
  lemma {:induction false} ListingsEqualExactly(names: seq<string>, others: seq<string>, chains: seq<string>,
                                                first: (string, string) -> bool, second: (string, string) -> bool)
    requires ListedBy(names, chains, first) && ListedBy(others, chains, second)
    ensures names == others
            <==> forall a, b | a in chains && b in chains && a != b :: first(a, b) <==> second(a, b)
  {
    if names == others {
      forall a, b | a in chains && b in chains && a != b ensures first(a, b) <==> second(a, b) {
        var i :| 0 <= i < |names| && names[i] == a;
        var j :| 0 <= j < |names| && names[j] == b;
        assert i < j ==> first(names[i], names[j]) && second(others[i], others[j]);
        assert j < i ==> !first(names[i], names[j]) && !second(others[i], others[j]);
      }
    }
    if forall a, b | a in chains && b in chains && a != b :: first(a, b) <==> second(a, b) {
      forall i, j | 0 <= i < j < |others| ensures first(others[i], others[j]) && !first(others[j], others[i]) {
        assert others[i] in others && others[j] in others;
        assert second(others[i], others[j]) && !second(others[j], others[i]);
      }
      SameListing(names, others, first);
    }
  }

  /**
    Where the engine's comparator is not circular, the two copies list all chains in the same
    order if and only if their comparators agree on every two of them.
   */
  lemma {:induction false} CopiesListAlikeExactly(locale: Locale, f: Field)
    requires LocaleOrder(locale) && f.chains != [] && Distinct(f.chains) && NoCircle(locale, EngineRun(f))
    ensures ChainsOf(RankedBy(locale, EngineRun(f))) == ChainsOf(RankedInline(locale, CopyRun(f)))
            <==> AgreeOnPairs(locale, f)
  {
    var first := (a: string, b: string) => EngineFirst(locale, EngineRun(f), a, b);
    var second := (a: string, b: string) => InlineFirst(locale, CopyRun(f), a, b);
    EngineListed(locale, EngineRun(f));
    InlineListed(locale, CopyRun(f));
    ListingsEqualExactly(ChainsOf(RankedBy(locale, EngineRun(f))), ChainsOf(RankedInline(locale, CopyRun(f))),
        f.chains, first, second);
  }
}
