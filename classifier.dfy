/**
 * `analyze_article_fuzzy`: which companies, or failing those which sectors,
 * an article mentions. Companies are compared, in dictionary order on their
 * lower-cased name and then on their keywords; every matching company gives
 * one numbered row. Only when no company matched are the sectors compared, in
 * map order; a sector gives one row, with empty company name and ticker, at
 * its first matching keyword.
 */
module Classifier {
  import opened Indices
  import opened Fuzzy
  import opened Dictionaries

  /** One result row: the `STT` number, company name, ticker and sector name. */
  datatype Row = Row(stt: nat, companyName: string, ticker: string, sectorName: string)

  /** The row of a matching company: its official name, ticker and sector. */
  function CompanyRow(c: Company, stt: nat): Row {
    Row(stt, c.officialName, c.ticker, c.sector)
  }

  /** The row of a matching sector: no company name and no ticker. */
  function SectorRow(name: string, stt: nat): Row {
    Row(stt, "", "", name)
  }

  // ------------------------------------------------------------ match rules

  /** Some keyword of the list is similar to the article. */
  predicate KeywordHit(m: Matcher, articleLower: string, keywords: seq<string>, threshold: int) {
    exists j :: 0 <= j < |keywords| && IsSimilar(m, articleLower, keywords[j], threshold)
  }

  /** A company matches on its lower-cased name or on one of its keywords. */
  predicate CompanyMatches(m: Matcher, articleLower: string, c: Company, threshold: int) {
    IsSimilar(m, articleLower, c.matchName, threshold) || KeywordHit(m, articleLower, c.keywords, threshold)
  }

  /** A sector matches on one of its keywords. */
  predicate SectorMatches(m: Matcher, articleLower: string, e: SectorEntry, threshold: int) {
    KeywordHit(m, articleLower, e.keywords, threshold)
  }

  predicate AnyCompanyMatches(m: Matcher, articleLower: string, companies: seq<Company>, threshold: int) {
    exists j :: 0 <= j < |companies| && CompanyMatches(m, articleLower, companies[j], threshold)
  }

  function CompanyFlags(m: Matcher, articleLower: string, companies: seq<Company>, threshold: int): (f: seq<bool>)
    ensures |f| == |companies|
    ensures forall j :: 0 <= j < |f| ==> f[j] == CompanyMatches(m, articleLower, companies[j], threshold)
  {
    seq(|companies|, j requires 0 <= j < |companies| => CompanyMatches(m, articleLower, companies[j], threshold))
  }

  function SectorFlags(m: Matcher, articleLower: string, sectors: SectorMap, threshold: int): (f: seq<bool>)
    ensures |f| == |sectors|
    ensures forall j :: 0 <= j < |f| ==> f[j] == SectorMatches(m, articleLower, sectors[j], threshold)
  {
    seq(|sectors|, j requires 0 <= j < |sectors| => SectorMatches(m, articleLower, sectors[j], threshold))
  }

  /** Rows for the selected companies, numbered from 1. */
  function CompanyRows(companies: seq<Company>, idx: seq<nat>): (r: seq<Row>)
    requires forall k :: 0 <= k < |idx| ==> idx[k] < |companies|
  {
    seq(|idx|, k requires 0 <= k < |idx| => CompanyRow(companies[idx[k]], k + 1))
  }

  /** Rows for the selected sectors, numbered from 1. */
  function SectorRows(sectors: SectorMap, idx: seq<nat>): (r: seq<Row>)
    requires forall k :: 0 <= k < |idx| ==> idx[k] < |sectors|
  {
    seq(|idx|, k requires 0 <= k < |idx| => SectorRow(sectors[idx[k]].name, k + 1))
  }

  // The helper lemmas below come in company/sector pairs. Each keeps one proof
  // step in a small context of its own, which keeps the verifier fast and stable.

  lemma CompanyRowsAt(companies: seq<Company>, idx: seq<nat>)
    requires forall k :: 0 <= k < |idx| ==> idx[k] < |companies|
    ensures |CompanyRows(companies, idx)| == |idx|
    ensures forall k :: 0 <= k < |idx| ==> CompanyRows(companies, idx)[k] == CompanyRow(companies[idx[k]], k + 1)
  {
  }

  lemma CompanyRowsSnoc(companies: seq<Company>, idx: seq<nat>, j: nat)
    requires forall k :: 0 <= k < |idx| ==> idx[k] < |companies|
    requires j < |companies|
    ensures CompanyRows(companies, idx + [j]) == CompanyRows(companies, idx) + [CompanyRow(companies[j], |idx| + 1)]
  {
  }

  lemma SectorRowsAt(sectors: SectorMap, idx: seq<nat>)
    requires forall k :: 0 <= k < |idx| ==> idx[k] < |sectors|
    ensures |SectorRows(sectors, idx)| == |idx|
    ensures forall k :: 0 <= k < |idx| ==> SectorRows(sectors, idx)[k] == SectorRow(sectors[idx[k]].name, k + 1)
  {
  }

  lemma SectorRowsSnoc(sectors: SectorMap, idx: seq<nat>, j: nat)
    requires forall k :: 0 <= k < |idx| ==> idx[k] < |sectors|
    requires j < |sectors|
    ensures SectorRows(sectors, idx + [j]) == SectorRows(sectors, idx) + [SectorRow(sectors[j].name, |idx| + 1)]
  {
  }

  /** One step of the company pass: the rows of the first `i + 1` flagged companies. */
  lemma CompanyRowsStep(companies: seq<Company>, flags: seq<bool>, i: nat, hits: seq<nat>)
    requires |flags| == |companies| && i < |flags|
    requires hits == TrueIndices(flags[..i])
    ensures forall k :: 0 <= k < |hits| ==> hits[k] < |companies|
    ensures TrueIndices(flags[..i + 1]) == if flags[i] then hits + [i] else hits
    ensures CompanyRows(companies, hits + [i]) == CompanyRows(companies, hits) + [CompanyRow(companies[i], |hits| + 1)]
  {
    TrueIndicesSnoc(flags, i);
    CompanyRowsSnoc(companies, hits, i);
  }

  /** One step of the sector pass: the rows of the first `i + 1` flagged sectors. */
  lemma SectorRowsStep(sectors: SectorMap, flags: seq<bool>, i: nat, hits: seq<nat>)
    requires |flags| == |sectors| && i < |flags|
    requires hits == TrueIndices(flags[..i])
    ensures forall k :: 0 <= k < |hits| ==> hits[k] < |sectors|
    ensures TrueIndices(flags[..i + 1]) == if flags[i] then hits + [i] else hits
    ensures SectorRows(sectors, hits + [i]) == SectorRows(sectors, hits) + [SectorRow(sectors[i].name, |hits| + 1)]
  {
    TrueIndicesSnoc(flags, i);
    SectorRowsSnoc(sectors, hits, i);
  }

  // ----------------------------------------------------------- specification

  /**
   * The result of `analyze_article_fuzzy`: the matching companies if there is
   * any, otherwise the matching sectors. Rows are numbered 1..N.
   */
  function Classify(m: Matcher, articleText: string, companies: seq<Company>, sectors: SectorMap, threshold: int): (r: seq<Row>)
    ensures forall k :: 0 <= k < |r| ==> r[k].stt == k + 1
    ensures AnyCompanyMatches(m, m.lower(articleText), companies, threshold) ==> 1 <= |r| <= |companies|
    ensures !AnyCompanyMatches(m, m.lower(articleText), companies, threshold) ==> |r| <= |sectors|
  {
    var articleLower := m.lower(articleText);
    var flags := CompanyFlags(m, articleLower, companies, threshold);
    var hits := TrueIndices(flags);
    TrueIndicesMembers(flags);
    assert hits != [] ==> CompanyMatches(m, articleLower, companies[hits[0]], threshold);
    if hits != [] then CompanyRows(companies, hits)
    else SectorRows(sectors, TrueIndices(SectorFlags(m, articleLower, sectors, threshold)))
  }

  // ----------------------------------------------------------- the procedure

  /** The inner `for kw in keywords: if is_similar(...): ...; break` scan. */
  method ScanKeywords(m: Matcher, articleLower: string, keywords: seq<string>, threshold: int) returns (hit: bool)
    ensures hit == KeywordHit(m, articleLower, keywords, threshold)
  {
    hit := false;
    var j := 0;
    while j < |keywords|
      invariant 0 <= j <= |keywords|
      invariant forall l :: 0 <= l < j ==> !IsSimilar(m, articleLower, keywords[l], threshold)
    {
      if IsSimilar(m, articleLower, keywords[j], threshold) {
        hit := true;
        break;
      }
      j := j + 1;
    }
  }

  /** The test of one company: its lower-cased name first, then its keywords. */
  method TestCompany(m: Matcher, articleLower: string, company: Company, threshold: int) returns (matched: bool)
    ensures matched == CompanyMatches(m, articleLower, company, threshold)
  {
    matched := false;
    if IsSimilar(m, articleLower, company.matchName, threshold) {
      matched := true;
    }
    if !matched {
      matched := ScanKeywords(m, articleLower, company.keywords, threshold);
    }
  }

  /** The company loop: every matching company, in dictionary order, numbered from 1. */
  method MatchCompanies(m: Matcher, articleLower: string, companyDict: seq<Company>, threshold: int)
    returns (results: seq<Row>)
    ensures results == CompanyRows(companyDict, TrueIndices(CompanyFlags(m, articleLower, companyDict, threshold)))
  {
    results := [];
    var stt := 1;
    ghost var flags := CompanyFlags(m, articleLower, companyDict, threshold);
    ghost var hits: seq<nat> := [];
    var i := 0;
    while i < |companyDict|
      invariant 0 <= i <= |companyDict|
      invariant hits == TrueIndices(flags[..i])
      invariant results == CompanyRows(companyDict, hits)
      invariant stt == |hits| + 1
    {
      var matched := TestCompany(m, articleLower, companyDict[i], threshold);
      assert matched == flags[i];
      CompanyRowsStep(companyDict, flags, i, hits);
      if matched {
        results := results + [CompanyRow(companyDict[i], stt)];
        stt := stt + 1;
        hits := hits + [i];
      }
      i := i + 1;
    }
    assert flags[..i] == flags;
  }

  /** The sector loop: every sector with a matching keyword, in map order, numbered from 1. */
  method MatchSectors(m: Matcher, articleLower: string, sectorDict: SectorMap, threshold: int)
    returns (results: seq<Row>)
    ensures results == SectorRows(sectorDict, TrueIndices(SectorFlags(m, articleLower, sectorDict, threshold)))
  {
    results := [];
    var stt := 1;
    ghost var flags := SectorFlags(m, articleLower, sectorDict, threshold);
    ghost var hits: seq<nat> := [];
    var s := 0;
    while s < |sectorDict|
      invariant 0 <= s <= |sectorDict|
      invariant hits == TrueIndices(flags[..s])
      invariant results == SectorRows(sectorDict, hits)
      invariant stt == |hits| + 1
    {
      var hit := ScanKeywords(m, articleLower, sectorDict[s].keywords, threshold);
      assert hit == flags[s];
      SectorRowsStep(sectorDict, flags, s, hits);
      if hit {
        results := results + [SectorRow(sectorDict[s].name, stt)];
        stt := stt + 1;
        hits := hits + [s];
      }
      s := s + 1;
    }
    assert flags[..s] == flags;
  }

  /** `analyze_article_fuzzy`: the company loop, then the sector loop when it found nothing. */
  method AnalyzeArticleFuzzy(m: Matcher, articleText: string, companyDict: seq<Company>, sectorDict: SectorMap,
                             threshold: int := DefaultThreshold)
    returns (results: seq<Row>)
    ensures results == Classify(m, articleText, companyDict, sectorDict, threshold)
  {
    var articleLower := m.lower(articleText);
    results := MatchCompanies(m, articleLower, companyDict, threshold);
    if results == [] {
      results := MatchSectors(m, articleLower, sectorDict, threshold);
    }
  }
  // -------------------------------------------------------------- properties

  predicate AnySectorMatches(m: Matcher, articleLower: string, sectors: SectorMap, threshold: int) {
    exists j :: 0 <= j < |sectors| && SectorMatches(m, articleLower, sectors[j], threshold)
  }

  /**
   * `r` lists, through the strictly increasing positions `idx`, exactly the
   * matching companies, each once, with its own name, ticker and sector.
   */
  ghost predicate CompanySelection(r: seq<Row>, m: Matcher, articleLower: string, companies: seq<Company>,
                                   threshold: int, idx: seq<nat>) {
    && |idx| == |r|
    && StrictlyIncreasing(idx)
    && (forall k :: 0 <= k < |idx| ==> idx[k] < |companies| && r[k] == CompanyRow(companies[idx[k]], k + 1))
    && (forall j :: 0 <= j < |companies| ==> (j in idx <==> CompanyMatches(m, articleLower, companies[j], threshold)))
  }

  /** The same for sectors: one row per matching sector, no company name, no ticker. */
  ghost predicate SectorSelection(r: seq<Row>, m: Matcher, articleLower: string, sectors: SectorMap,
                                  threshold: int, idx: seq<nat>) {
    && |idx| == |r|
    && StrictlyIncreasing(idx)
    && (forall k :: 0 <= k < |idx| ==> idx[k] < |sectors| && r[k] == SectorRow(sectors[idx[k]].name, k + 1))
    && (forall j :: 0 <= j < |sectors| ==> (j in idx <==> SectorMatches(m, articleLower, sectors[j], threshold)))
  }

  /** When some company matches, the rows are exactly the matching companies, in dictionary order. */
  lemma CompanyMatchRule(m: Matcher, articleText: string, companies: seq<Company>, sectors: SectorMap, threshold: int)
    requires AnyCompanyMatches(m, m.lower(articleText), companies, threshold)
    ensures exists idx :: CompanySelection(Classify(m, articleText, companies, sectors, threshold),
                                           m, m.lower(articleText), companies, threshold, idx)
  {
    var al := m.lower(articleText);
    var idx := TrueIndices(CompanyFlags(m, al, companies, threshold));
    CompanyHits(m, al, companies, threshold);
    CompanyRowsSelection(m, al, companies, threshold);
    assert Classify(m, articleText, companies, sectors, threshold) == CompanyRows(companies, idx);
  }

  /** The rows of the flagged companies are a company selection. */
  lemma CompanyRowsSelection(m: Matcher, articleLower: string, companies: seq<Company>, threshold: int)
    ensures var idx := TrueIndices(CompanyFlags(m, articleLower, companies, threshold));
            CompanySelection(CompanyRows(companies, idx), m, articleLower, companies, threshold, idx)
  {
    var idx := TrueIndices(CompanyFlags(m, articleLower, companies, threshold));
    CompanyFlagMembers(m, articleLower, companies, threshold);
    var r := CompanyRows(companies, idx);
    CompanyRowsAt(companies, idx);
    assert CompanySelection(r, m, articleLower, companies, threshold, idx);
  }

  /** A company is selected exactly when it matches. */
  lemma CompanyFlagMembers(m: Matcher, articleLower: string, companies: seq<Company>, threshold: int)
    ensures forall j :: 0 <= j < |companies| ==>
              (j in TrueIndices(CompanyFlags(m, articleLower, companies, threshold)) <==> CompanyMatches(m, articleLower, companies[j], threshold))
  {
    TrueIndicesMembers(CompanyFlags(m, articleLower, companies, threshold));
  }


  /** When no company matches, the rows are exactly the matching sectors, in map order. */
  lemma SectorFallback(m: Matcher, articleText: string, companies: seq<Company>, sectors: SectorMap, threshold: int)
    requires !AnyCompanyMatches(m, m.lower(articleText), companies, threshold)
    ensures exists idx :: SectorSelection(Classify(m, articleText, companies, sectors, threshold),
                                          m, m.lower(articleText), sectors, threshold, idx)
  {
    var al := m.lower(articleText);
    var idx := TrueIndices(SectorFlags(m, al, sectors, threshold));
    CompanyHits(m, al, companies, threshold);
    SectorRowsSelection(m, al, sectors, threshold);
    assert Classify(m, articleText, companies, sectors, threshold) == SectorRows(sectors, idx);
  }

  /** The rows of the flagged sectors are a sector selection. */
  lemma SectorRowsSelection(m: Matcher, articleLower: string, sectors: SectorMap, threshold: int)
    ensures var idx := TrueIndices(SectorFlags(m, articleLower, sectors, threshold));
            SectorSelection(SectorRows(sectors, idx), m, articleLower, sectors, threshold, idx)
  {
    var idx := TrueIndices(SectorFlags(m, articleLower, sectors, threshold));
    SectorFlagMembers(m, articleLower, sectors, threshold);
    var r := SectorRows(sectors, idx);
    SectorRowsAt(sectors, idx);
    assert SectorSelection(r, m, articleLower, sectors, threshold, idx);
  }

  /** A sector is selected exactly when it matches. */
  lemma SectorFlagMembers(m: Matcher, articleLower: string, sectors: SectorMap, threshold: int)
    ensures forall j :: 0 <= j < |sectors| ==>
              (j in TrueIndices(SectorFlags(m, articleLower, sectors, threshold)) <==> SectorMatches(m, articleLower, sectors[j], threshold))
  {
    TrueIndicesMembers(SectorFlags(m, articleLower, sectors, threshold));
  }


  /** Some company is selected exactly when some company matches. */
  lemma CompanyHits(m: Matcher, articleLower: string, companies: seq<Company>, threshold: int)
    ensures TrueIndices(CompanyFlags(m, articleLower, companies, threshold)) != [] <==>
              AnyCompanyMatches(m, articleLower, companies, threshold)
  {
    var flags := CompanyFlags(m, articleLower, companies, threshold);
    var idx := TrueIndices(flags);
    if idx != [] {
      assert CompanyMatches(m, articleLower, companies[idx[0]], threshold);
    }
    if AnyCompanyMatches(m, articleLower, companies, threshold) {
      var j :| 0 <= j < |companies| && CompanyMatches(m, articleLower, companies[j], threshold);
      TrueIndicesMembers(flags);
      assert flags[j];
    }
  }

  /** Some sector is selected exactly when some sector matches. */
  lemma SectorHits(m: Matcher, articleLower: string, sectors: SectorMap, threshold: int)
    ensures TrueIndices(SectorFlags(m, articleLower, sectors, threshold)) != [] <==>
              AnySectorMatches(m, articleLower, sectors, threshold)
  {
    var flags := SectorFlags(m, articleLower, sectors, threshold);
    var idx := TrueIndices(flags);
    if idx != [] {
      assert SectorMatches(m, articleLower, sectors[idx[0]], threshold);
    }
    if AnySectorMatches(m, articleLower, sectors, threshold) {
      var j :| 0 <= j < |sectors| && SectorMatches(m, articleLower, sectors[j], threshold);
      TrueIndicesMembers(flags);
      assert flags[j];
    }
  }

  /**
   * Company precedence: once a company matches, the sectors play no part;
   * otherwise the companies play no part.
   */
  lemma CompanyPrecedence(m: Matcher, articleText: string, companies: seq<Company>,
                          sectors1: SectorMap, sectors2: SectorMap, threshold: int)
    ensures AnyCompanyMatches(m, m.lower(articleText), companies, threshold) ==>
              Classify(m, articleText, companies, sectors1, threshold) == Classify(m, articleText, companies, sectors2, threshold)
    ensures !AnyCompanyMatches(m, m.lower(articleText), companies, threshold) ==>
              Classify(m, articleText, companies, sectors1, threshold) == Classify(m, articleText, [], sectors1, threshold)
  {
    var al := m.lower(articleText);
    CompanyHits(m, al, companies, threshold);
    if !AnyCompanyMatches(m, al, companies, threshold) {
      assert CompanyFlags(m, al, [], threshold) == [];
    }
  }

  /** The result is empty exactly when neither a company nor a sector matches. */
  lemma EmptyResult(m: Matcher, articleText: string, companies: seq<Company>, sectors: SectorMap, threshold: int)
    ensures Classify(m, articleText, companies, sectors, threshold) == [] <==>
              !AnyCompanyMatches(m, m.lower(articleText), companies, threshold) &&
              !AnySectorMatches(m, m.lower(articleText), sectors, threshold)
  {
    var al := m.lower(articleText);
    CompanyHits(m, al, companies, threshold);
    SectorHits(m, al, sectors, threshold);
  }

  /** With no companies and no sectors the result is empty. */
  lemma EmptyDictionaries(m: Matcher, articleText: string, threshold: int)
    ensures Classify(m, articleText, [], [], threshold) == []
  {
    assert CompanyFlags(m, m.lower(articleText), [], threshold) == [];
    assert SectorFlags(m, m.lower(articleText), [], threshold) == [];
  }

  /**
   * An empty article gives an empty result, provided the score of the
   * (twice lower-cased) empty article against any text stays below the
   * threshold. The score is abstract, so this cannot hold unconditionally:
   * at threshold 0 every pair is similar.
   */
  lemma EmptyArticle(m: Matcher, companies: seq<Company>, sectors: SectorMap, threshold: int)
    requires forall b :: m.score(m.lower(m.lower("")), b) < threshold as real
    ensures Classify(m, "", companies, sectors, threshold) == []
  {
    EmptyResult(m, "", companies, sectors, threshold);
  }

  /**
   * A sector map with distinct names, as `load_sector_dictionary` builds,
   * yields each sector name at most once.
   */
  lemma SectorAtMostOnce(m: Matcher, articleText: string, companies: seq<Company>, sectors: SectorMap, threshold: int)
    requires UniqueNames(sectors)
    requires !AnyCompanyMatches(m, m.lower(articleText), companies, threshold)
    ensures var r := Classify(m, articleText, companies, sectors, threshold);
            forall k1, k2 :: 0 <= k1 < k2 < |r| ==> r[k1].sectorName != r[k2].sectorName
  {
    var al := m.lower(articleText);
    CompanyHits(m, al, companies, threshold);
    var idx := TrueIndices(SectorFlags(m, al, sectors, threshold));
    var r := Classify(m, articleText, companies, sectors, threshold);
    forall k1, k2 | 0 <= k1 < k2 < |r|
      ensures r[k1].sectorName != r[k2].sectorName
    {
      assert idx[k1] < idx[k2];
      assert r[k1].sectorName == sectors[idx[k1]].name;
    }
  }

  /** Every row of `r1` is also a row of `r2`, possibly under another number. */
  predicate RowsKept(r1: seq<Row>, r2: seq<Row>) {
    forall k :: 0 <= k < |r1| ==> RowIn(r1[k], r2)
  }

  /** `row` occurs in `rows` under its position's number. */
  predicate RowIn(row: Row, rows: seq<Row>) {
    exists k :: 0 <= k < |rows| && rows[k] == row.(stt := k + 1)
  }

  /**
   * `row`, numbered `stt`, shows some record's own official name, ticker and
   * sector, and that record matches on its lower-cased name or its parsed keywords.
   */
  ghost predicate RowOfMatchingRecord(m: Matcher, articleLower: string, records: seq<CompanyRecord>, threshold: int,
                                      row: Row, stt: nat) {
    exists j :: 0 <= j < |records|
      && row == Row(stt, records[j].officialName, records[j].ticker, records[j].sector)
      && (|| IsSimilar(m, articleLower, m.lower(records[j].officialName), threshold)
          || KeywordHit(m, articleLower, CompanyKeywords(records[j].keywordCell, m.lower), threshold))
  }

  /**
   * Over a loaded company dictionary, each company row shows the record's own
   * official name, ticker and sector (not the lower-cased matching name),
   * while the match itself was made on the lower-cased name or the keywords.
   */
  lemma LoadedCompanyRows(m: Matcher, articleText: string, records: seq<CompanyRecord>, sectors: SectorMap, threshold: int)
    requires AnyCompanyMatches(m, m.lower(articleText), LoadCompanyDictionary(records, m.lower), threshold)
    ensures var r := Classify(m, articleText, LoadCompanyDictionary(records, m.lower), sectors, threshold);
            forall k :: 0 <= k < |r| ==> RowOfMatchingRecord(m, m.lower(articleText), records, threshold, r[k], k + 1)
  {
    var companies := LoadCompanyDictionary(records, m.lower);
    var r := Classify(m, articleText, companies, sectors, threshold);
    CompanyMatchRule(m, articleText, companies, sectors, threshold);
    var idx :| CompanySelection(r, m, m.lower(articleText), companies, threshold, idx);
    forall k | 0 <= k < |r|
      ensures RowOfMatchingRecord(m, m.lower(articleText), records, threshold, r[k], k + 1)
    {
      LoadedRow(m, m.lower(articleText), records, threshold, r, idx, k);
    }
  }

  /** Row `k` of a company selection over loaded records; the body names the record it comes from. */
  lemma LoadedRow(m: Matcher, articleLower: string, records: seq<CompanyRecord>, threshold: int,
                  r: seq<Row>, idx: seq<nat>, k: nat)
    requires CompanySelection(r, m, articleLower, LoadCompanyDictionary(records, m.lower), threshold, idx)
    requires k < |r|
    ensures RowOfMatchingRecord(m, articleLower, records, threshold, r[k], k + 1)
  {
    var companies := LoadCompanyDictionary(records, m.lower);
    var j := idx[k];
    assert j in idx;
    assert CompanyMatches(m, articleLower, companies[j], threshold);
    assert r[k] == Row(k + 1, records[j].officialName, records[j].ticker, records[j].sector);
  }

  /** Over a loaded sector dictionary, the sector fallback names each sector at most once. */
  lemma LoadedSectorRowsDistinct(m: Matcher, articleText: string, companies: seq<Company>,
                                 rows: seq<SectorRecord>, threshold: int)
    requires forall i :: 0 <= i < |rows| ==> WellFormed(rows[i])
    requires !AnyCompanyMatches(m, m.lower(articleText), companies, threshold)
    ensures var r := Classify(m, articleText, companies, AssignAll(RowEntries(rows, m.lower)), threshold);
            forall k1, k2 :: 0 <= k1 < k2 < |r| ==> r[k1].sectorName != r[k2].sectorName
  {
    AssignAllUnique(RowEntries(rows, m.lower));
    SectorAtMostOnce(m, articleText, companies, AssignAll(RowEntries(rows, m.lower)), threshold);
  }

  /** A lower threshold keeps every company match. */
  lemma CompanyMatchesAtLowerThreshold(m: Matcher, articleLower: string, c: Company, t1: int, t2: int)
    requires t2 <= t1
    requires CompanyMatches(m, articleLower, c, t1)
    ensures CompanyMatches(m, articleLower, c, t2)
  {
    if !IsSimilar(m, articleLower, c.matchName, t1) {
      var j :| 0 <= j < |c.keywords| && IsSimilar(m, articleLower, c.keywords[j], t1);
      SimilarAtLowerThreshold(m, articleLower, c.keywords[j], t1, t2);
    } else {
      SimilarAtLowerThreshold(m, articleLower, c.matchName, t1, t2);
    }
  }

  /** A lower threshold keeps every sector match. */
  lemma SectorMatchesAtLowerThreshold(m: Matcher, articleLower: string, e: SectorEntry, t1: int, t2: int)
    requires t2 <= t1
    requires SectorMatches(m, articleLower, e, t1)
    ensures SectorMatches(m, articleLower, e, t2)
  {
    var j :| 0 <= j < |e.keywords| && IsSimilar(m, articleLower, e.keywords[j], t1);
    SimilarAtLowerThreshold(m, articleLower, e.keywords[j], t1, t2);
  }

  /**
   * Threshold monotonicity for companies: every company row produced at `t1`
   * is produced, possibly under another number, at any `t2 <= t1`.
   */
  lemma ThresholdMonotoneCompanies(m: Matcher, articleText: string, companies: seq<Company>, sectors: SectorMap,
                                   t1: int, t2: int)
    requires t2 <= t1
    requires AnyCompanyMatches(m, m.lower(articleText), companies, t1)
    ensures AnyCompanyMatches(m, m.lower(articleText), companies, t2)
    ensures RowsKept(Classify(m, articleText, companies, sectors, t1), Classify(m, articleText, companies, sectors, t2))
  {
    var al := m.lower(articleText);
    var j :| 0 <= j < |companies| && CompanyMatches(m, al, companies[j], t1);
    CompanyMatchesAtLowerThreshold(m, al, companies[j], t1, t2);
    CompanyMatchRule(m, articleText, companies, sectors, t1);
    CompanyMatchRule(m, articleText, companies, sectors, t2);
    var r1 := Classify(m, articleText, companies, sectors, t1);
    var r2 := Classify(m, articleText, companies, sectors, t2);
    var idx1 :| CompanySelection(r1, m, al, companies, t1, idx1);
    var idx2 :| CompanySelection(r2, m, al, companies, t2, idx2);
    CompanyRowsKept(m, al, companies, t1, t2, r1, r2, idx1, idx2);
  }

  // As above, the row-by-row steps of the monotonicity proofs are separate
  // company and sector lemmas, each with a small context. The verifier can
  // often find these steps unaided; the bodies spell out the argument for a
  // reader and keep the calling proofs stable across solver seeds.

  lemma CompanyRowsKept(m: Matcher, al: string, companies: seq<Company>, t1: int, t2: int,
                        r1: seq<Row>, r2: seq<Row>, idx1: seq<nat>, idx2: seq<nat>)
    requires t2 <= t1
    requires CompanySelection(r1, m, al, companies, t1, idx1)
    requires CompanySelection(r2, m, al, companies, t2, idx2)
    ensures RowsKept(r1, r2)
  {
    forall k | 0 <= k < |r1|
      ensures RowIn(r1[k], r2)
    {
      CompanyRowKept(m, al, companies, t1, t2, r1, r2, idx1, idx2, k);
    }
  }

  lemma CompanyRowKept(m: Matcher, al: string, companies: seq<Company>, t1: int, t2: int,
                       r1: seq<Row>, r2: seq<Row>, idx1: seq<nat>, idx2: seq<nat>, k: nat)
    requires t2 <= t1
    requires CompanySelection(r1, m, al, companies, t1, idx1)
    requires CompanySelection(r2, m, al, companies, t2, idx2)
    requires k < |r1|
    ensures RowIn(r1[k], r2)
  {
    var c := idx1[k];
    assert c in idx1;
    CompanyMatchesAtLowerThreshold(m, al, companies[c], t1, t2);
    assert c in idx2;
    var k2 :| 0 <= k2 < |idx2| && idx2[k2] == c;
    assert r2[k2] == r1[k].(stt := k2 + 1);
  }

  /**
   * Threshold monotonicity for sectors, when the lower threshold still falls
   * back to the sectors: every sector row produced at `t1` is produced at `t2`.
   */
  lemma ThresholdMonotoneSectors(m: Matcher, articleText: string, companies: seq<Company>, sectors: SectorMap,
                                 t1: int, t2: int)
    requires t2 <= t1
    requires !AnyCompanyMatches(m, m.lower(articleText), companies, t2)
    ensures !AnyCompanyMatches(m, m.lower(articleText), companies, t1)
    ensures RowsKept(Classify(m, articleText, companies, sectors, t1), Classify(m, articleText, companies, sectors, t2))
  {
    var al := m.lower(articleText);
    if AnyCompanyMatches(m, al, companies, t1) {
      var j :| 0 <= j < |companies| && CompanyMatches(m, al, companies[j], t1);
      CompanyMatchesAtLowerThreshold(m, al, companies[j], t1, t2);
      assert false;
    }
    SectorFallback(m, articleText, companies, sectors, t1);
    SectorFallback(m, articleText, companies, sectors, t2);
    var r1 := Classify(m, articleText, companies, sectors, t1);
    var r2 := Classify(m, articleText, companies, sectors, t2);
    var idx1 :| SectorSelection(r1, m, al, sectors, t1, idx1);
    var idx2 :| SectorSelection(r2, m, al, sectors, t2, idx2);
    SectorRowsKept(m, al, sectors, t1, t2, r1, r2, idx1, idx2);
  }

  lemma SectorRowsKept(m: Matcher, al: string, sectors: SectorMap, t1: int, t2: int,
                        r1: seq<Row>, r2: seq<Row>, idx1: seq<nat>, idx2: seq<nat>)
    requires t2 <= t1
    requires SectorSelection(r1, m, al, sectors, t1, idx1)
    requires SectorSelection(r2, m, al, sectors, t2, idx2)
    ensures RowsKept(r1, r2)
  {
    forall k | 0 <= k < |r1|
      ensures RowIn(r1[k], r2)
    {
      SectorRowKept(m, al, sectors, t1, t2, r1, r2, idx1, idx2, k);
    }
  }

  lemma SectorRowKept(m: Matcher, al: string, sectors: SectorMap, t1: int, t2: int,
                      r1: seq<Row>, r2: seq<Row>, idx1: seq<nat>, idx2: seq<nat>, k: nat)
    requires t2 <= t1
    requires SectorSelection(r1, m, al, sectors, t1, idx1)
    requires SectorSelection(r2, m, al, sectors, t2, idx2)
    requires k < |r1|
    ensures RowIn(r1[k], r2)
  {
    var e := idx1[k];
    assert e in idx1;
    SectorMatchesAtLowerThreshold(m, al, sectors[e], t1, t2);
    assert e in idx2;
    var k2 :| 0 <= k2 < |idx2| && idx2[k2] == e;
    assert r2[k2] == r1[k].(stt := k2 + 1);
  }

  /**
   * Without that proviso monotonicity fails: lowering the threshold can let a
   * company match and so suppress a sector row that was produced before.
   */
  lemma LowerThresholdCanDropSectorRow()
    ensures var m := Matcher(s => s, (a, b) => if b == "acme" then 80.0 else 90.0);
            var c := Company("ACM", "Acme", "Tech", "acme", []);
            var e := SectorEntry("Tech", ["tech"]);
            && Classify(m, "x", [c], [e], 85) == [SectorRow("Tech", 1)]
            && Classify(m, "x", [c], [e], 70) == [CompanyRow(c, 1)]
  {
    var m := Matcher(s => s, (a, b) => if b == "acme" then 80.0 else 90.0);
    var c := Company("ACM", "Acme", "Tech", "acme", []);
    var e := SectorEntry("Tech", ["tech"]);
    assert !CompanyMatches(m, "x", c, 85);
    assert CompanyFlags(m, "x", [c], 85) == [false];
    assert SectorMatches(m, "x", e, 85) by { assert IsSimilar(m, "x", e.keywords[0], 85); }
    assert SectorFlags(m, "x", [e], 85) == [true];
    assert TrueIndices([true]) == [0] by { assert [true][..0] == []; }
    assert CompanyMatches(m, "x", c, 70);
    assert CompanyFlags(m, "x", [c], 70) == [true];
  }
}
