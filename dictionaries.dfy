/**
 * The two reference dictionaries as the classifier receives them: the company
 * records of `load_company_dictionary` and the ordered sector-to-keywords map
 * of `load_sector_dictionary`, built from already-read CSV rows.
 */
module Dictionaries {
  import opened Wrappers
  import opened Text
  import opened Indices

  // ---------------------------------------------------------------- keywords

  /** The `kw.strip()` of the comprehension, applied to every piece. */
  function StripAll(pieces: seq<string>): (r: seq<string>)
    ensures |r| == |pieces|
    ensures forall j :: 0 <= j < |r| ==> r[j] == Strip(pieces[j])
  {
    seq(|pieces|, j requires 0 <= j < |pieces| => Strip(pieces[j]))
  }

  /** The comprehension's filter on stripped pieces: an entry is kept when it is not empty. */
  function NonEmptyFlags(ts: seq<string>): (f: seq<bool>)
    ensures |f| == |ts|
    ensures forall j :: 0 <= j < |f| ==> f[j] == (ts[j] != [])
  {
    seq(|ts|, j requires 0 <= j < |ts| => ts[j] != [])
  }

  /** `[t.lower() for t in ts if t]`: lower-case the non-empty entries, in order. */
  function LowerNonEmpty(ts: seq<string>, lower: string -> string): (r: seq<string>)
    ensures |r| <= |ts|
  {
    if ts == [] then []
    else
      var n := |ts| - 1;
      LowerNonEmpty(ts[..n], lower) + (if ts[n] != [] then [lower(ts[n])] else [])
  }

  /**
   * The keyword-list parsing of analyze.py, `[kw.strip().lower() for kw in
   * text.split(",") if kw.strip()]`.
   */
  function ParseKeywordList(text: string, lower: string -> string): (r: seq<string>)
    ensures |r| <= |Split(text, ',')|
  {
    LowerNonEmpty(StripAll(Split(text, ',')), lower)
  }

  /**
   * `idx` lists, ascending and once each, exactly the pieces whose stripped
   * form is not empty, and `r` holds their lower-cased stripped forms.
   */
  ghost predicate NonBlankSelection(r: seq<string>, pieces: seq<string>, lower: string -> string, idx: seq<nat>) {
    && |idx| == |r|
    && StrictlyIncreasing(idx)
    && (forall k :: 0 <= k < |idx| ==> idx[k] < |pieces| && r[k] == lower(Strip(pieces[idx[k]])))
    && (forall j :: 0 <= j < |pieces| ==> (j in idx <==> Strip(pieces[j]) != []))
  }

  /** `r` holds, in source order, the lower-cased stripped forms of exactly the non-blank pieces. */
  ghost predicate SelectsNonBlank(r: seq<string>, pieces: seq<string>, lower: string -> string) {
    exists idx :: NonBlankSelection(r, pieces, lower, idx)
  }

  lemma {:induction false} LowerNonEmptyIsSelection(ts: seq<string>, lower: string -> string)
    ensures var idx := TrueIndices(NonEmptyFlags(ts));
            |LowerNonEmpty(ts, lower)| == |idx|
            && forall k :: 0 <= k < |idx| ==> LowerNonEmpty(ts, lower)[k] == lower(ts[idx[k]])
  {
    if ts != [] {
      var n := |ts| - 1;
      LowerNonEmptyIsSelection(ts[..n], lower);
      assert NonEmptyFlags(ts)[..n] == NonEmptyFlags(ts[..n]);
    }
  }

  /** Parsed keywords are the non-blank comma-separated fields, stripped and lower-cased, in order. */
  lemma KeywordsInSourceOrder(text: string, lower: string -> string)
    ensures SelectsNonBlank(ParseKeywordList(text, lower), Split(text, ','), lower)
  {
    var pieces := Split(text, ',');
    var ts := StripAll(pieces);
    var r := ParseKeywordList(text, lower);
    LowerNonEmptyIsSelection(ts, lower);
    var idx := TrueIndices(NonEmptyFlags(ts));
    TrueIndicesMembers(NonEmptyFlags(ts));
    assert r == LowerNonEmpty(ts, lower);
    assert forall k :: 0 <= k < |idx| ==> idx[k] < |pieces| && r[k] == lower(Strip(pieces[idx[k]]));
    assert forall j :: 0 <= j < |pieces| ==> (j in idx <==> Strip(pieces[j]) != []);
    assert NonBlankSelection(r, pieces, lower, idx);
  }

  /** Every entry is kept, in order, when no entry is empty. */
  lemma {:induction false} LowerAllNonEmpty(ts: seq<string>, lower: string -> string)
    requires forall i :: 0 <= i < |ts| ==> ts[i] != []
    ensures LowerNonEmpty(ts, lower) == seq(|ts|, i requires 0 <= i < |ts| => lower(ts[i]))
  {
    if ts != [] {
      LowerAllNonEmpty(ts[..|ts| - 1], lower);
    }
  }

  /** Writing clean keywords comma-separated and parsing them back yields them lower-cased. */
  lemma ParseJoinRoundTrip(keywords: seq<string>, lower: string -> string)
    requires forall i :: 0 <= i < |keywords| ==> keywords[i] != [] && IsTrimmed(keywords[i]) && ',' !in keywords[i]
    ensures ParseKeywordList(Join(keywords, ','), lower) == seq(|keywords|, i requires 0 <= i < |keywords| => lower(keywords[i]))
  {
    if keywords == [] {
      assert Split([], ',') == [[]];
      assert StripAll([[]]) == [[]];
      assert LowerNonEmpty([[]], lower) == [];
    } else {
      SplitJoin(keywords, ',');
      forall i | 0 <= i < |keywords| ensures Strip(keywords[i]) == keywords[i] {
        StripTrimmed(keywords[i]);
      }
      assert StripAll(keywords) == keywords;
      LowerAllNonEmpty(keywords, lower);
    }
  }

  /** No entry is kept when every entry is empty. */
  lemma {:induction false} LowerAllEmpty(ts: seq<string>, lower: string -> string)
    requires forall i :: 0 <= i < |ts| ==> ts[i] == []
    ensures LowerNonEmpty(ts, lower) == []
  {
    if ts != [] {
      LowerAllEmpty(ts[..|ts| - 1], lower);
    }
  }

  /** When lower-casing keeps non-empty strings non-empty, no parsed keyword is empty. */
  lemma KeywordsNonEmpty(text: string, lower: string -> string)
    requires forall s: string :: s != [] ==> lower(s) != []
    ensures forall k :: 0 <= k < |ParseKeywordList(text, lower)| ==> ParseKeywordList(text, lower)[k] != []
  {
    KeywordsInSourceOrder(text, lower);
  }

  /** A cell made only of white space and commas (the empty cell included) gives no keywords. */
  lemma BlankCellNoKeywords(text: string, lower: string -> string)
    requires forall i :: 0 <= i < |text| ==> IsSpace(text[i]) || text[i] == ','
    ensures ParseKeywordList(text, lower) == []
  {
    var pieces := Split(text, ',');
    JoinSplit(text, ',');
    forall j | 0 <= j < |pieces| ensures Strip(pieces[j]) == [] {
      PieceOfJoin(pieces, ',', j);
      forall k | 0 <= k < |pieces[j]| ensures IsSpace(pieces[j][k]) {
        assert pieces[j][k] in pieces[j];
        assert pieces[j][k] in text;
      }
      StripInfix(pieces[j]);
    }
    LowerAllEmpty(StripAll(pieces), lower);
  }

  /** Every character of a piece occurs in the joined text. */
  lemma {:induction false} PieceOfJoin(pieces: seq<string>, sep: char, j: nat)
    requires j < |pieces|
    ensures forall c :: c in pieces[j] ==> c in Join(pieces, sep)
  {
    if |pieces| > 1 && j > 0 {
      PieceOfJoin(pieces[1..], sep, j - 1);
    }
  }

  // --------------------------------------------------------------- companies

  /** A row of the company CSV after column cleaning; a missing keyword cell is `None`. */
  datatype CompanyRecord = CompanyRecord(ticker: string, officialName: string, sector: string, keywordCell: Option<string>)

  /**
   * A company as the classifier sees it: the official name, ticker and sector
   * shown in results, the lower-cased name used for matching, and its keywords.
   */
  datatype Company = Company(ticker: string, officialName: string, sector: string, matchName: string, keywords: seq<string>)

  /** The keyword column after `fillna("")` and parsing. */
  function CompanyKeywords(cell: Option<string>, lower: string -> string): (r: seq<string>)
    ensures cell.None? ==> r == []
    ensures cell.Some? ==> r == ParseKeywordList(cell.value, lower)
  {
    ParseKeywordList(if cell.Some? then cell.value else "", lower)
  }

  /** `load_company_dictionary` on its rows: one company per row, in row order. */
  function LoadCompanyDictionary(rows: seq<CompanyRecord>, lower: string -> string): (r: seq<Company>)
    ensures |r| == |rows|
    ensures forall i :: 0 <= i < |r| ==>
              && r[i].officialName == rows[i].officialName
              && r[i].ticker == rows[i].ticker
              && r[i].sector == rows[i].sector
              && r[i].matchName == lower(rows[i].officialName)
              && r[i].keywords == CompanyKeywords(rows[i].keywordCell, lower)
  {
    seq(|rows|, i requires 0 <= i < |rows| =>
      Company(rows[i].ticker, rows[i].officialName, rows[i].sector,
              lower(rows[i].officialName), CompanyKeywords(rows[i].keywordCell, lower)))
  }

  // ----------------------------------------------------------------- sectors

  /** One entry of the sector map: a sector name and its keywords. */
  datatype SectorEntry = SectorEntry(name: string, keywords: seq<string>)

  /** A Python dict from sector name to keywords, as its entries in insertion order. */
  type SectorMap = seq<SectorEntry>

  function Names(d: SectorMap): (r: seq<string>)
    ensures |r| == |d|
  {
    seq(|d|, i requires 0 <= i < |d| => d[i].name)
  }

  predicate UniqueNames(d: SectorMap) {
    forall i, j :: 0 <= i < j < |d| ==> d[i].name != d[j].name
  }

  /** `d.get(name)`. */
  function Lookup(d: SectorMap, name: string): Option<seq<string>> {
    if d == [] then None
    else if d[0].name == name then Some(d[0].keywords)
    else Lookup(d[1..], name)
  }

  /**
   * `d[name] = keywords`: an existing key keeps its place and gets the new
   * value; a new key goes at the end.
   */
  function Put(d: SectorMap, name: string, keywords: seq<string>): SectorMap {
    if d == [] then [SectorEntry(name, keywords)]
    else if d[0].name == name then [SectorEntry(name, keywords)] + d[1..]
    else [d[0]] + Put(d[1..], name, keywords)
  }

  /** Assigning an existing key keeps the key order; a new key is appended. */
  lemma {:induction false} PutNames(d: SectorMap, name: string, keywords: seq<string>)
    ensures Names(Put(d, name, keywords)) == if name in Names(d) then Names(d) else Names(d) + [name]
  {
    if d != [] {
      var rest := d[1..];
      assert Names(d) == [d[0].name] + Names(rest);
      if d[0].name == name {
        assert Names(Put(d, name, keywords)) == Names(d);
      } else {
        var r := Put(rest, name, keywords);
        PutNames(rest, name, keywords);
        assert Names([d[0]] + r) == [d[0].name] + Names(r);
        assert name in Names(d) <==> name in Names(rest);
        if name in Names(rest) {
          assert Names(Put(d, name, keywords)) == Names(d);
        } else {
          assert [d[0].name] + (Names(rest) + [name]) == Names(d) + [name];
        }
      }
    }
  }

  /** After `d[name] = keywords`, `name` maps to `keywords` and every other key is unchanged. */
  lemma {:induction false} PutLookup(d: SectorMap, name: string, keywords: seq<string>, key: string)
    ensures Lookup(Put(d, name, keywords), key) == if key == name then Some(keywords) else Lookup(d, key)
  {
    if d != [] && d[0].name != name {
      PutLookup(d[1..], name, keywords, key);
      assert ([d[0]] + Put(d[1..], name, keywords))[1..] == Put(d[1..], name, keywords);
    }
  }

  /** Assigning a key keeps the keys of a dict distinct. */
  lemma PutUnique(d: SectorMap, name: string, keywords: seq<string>)
    requires UniqueNames(d)
    ensures UniqueNames(Put(d, name, keywords))
  {
    var r := Put(d, name, keywords);
    PutNames(d, name, keywords);
    forall i, j | 0 <= i < j < |r| ensures r[i].name != r[j].name {
      assert Names(r)[i] == r[i].name && Names(r)[j] == r[j].name;
    }
  }

  /** The dict after `d[e.name] = e.keywords` for every entry e in turn, starting empty. */
  function AssignAll(entries: seq<SectorEntry>): SectorMap {
    if entries == [] then []
    else
      var n := |entries| - 1;
      Put(AssignAll(entries[..n]), entries[n].name, entries[n].keywords)
  }

  /** The keys of the dict are distinct. */
  lemma {:induction false} AssignAllUnique(entries: seq<SectorEntry>)
    ensures UniqueNames(AssignAll(entries))
  {
    if entries != [] {
      var n := |entries| - 1;
      AssignAllUnique(entries[..n]);
      PutUnique(AssignAll(entries[..n]), entries[n].name, entries[n].keywords);
    }
  }

  /** A name that no assignment uses is not a key of the dict. */
  lemma {:induction false} AssignAllAbsent(entries: seq<SectorEntry>, name: string)
    requires forall j :: 0 <= j < |entries| ==> entries[j].name != name
    ensures Lookup(AssignAll(entries), name) == None
  {
    if entries != [] {
      var n := |entries| - 1;
      assert forall j :: 0 <= j < n ==> entries[..n][j] == entries[j];
      AssignAllAbsent(entries[..n], name);
      PutLookup(AssignAll(entries[..n]), entries[n].name, entries[n].keywords, name);
    }
  }

  /** A name maps to the keywords of the LAST assignment that uses it. */
  lemma {:induction false} AssignAllLastWins(entries: seq<SectorEntry>, j: nat)
    requires j < |entries|
    requires forall l :: j < l < |entries| ==> entries[l].name != entries[j].name
    ensures Lookup(AssignAll(entries), entries[j].name) == Some(entries[j].keywords)
  {
    var n := |entries| - 1;
    var prefix := entries[..n];
    PutLookup(AssignAll(prefix), entries[n].name, entries[n].keywords, entries[j].name);
    if j < n {
      assert prefix[j] == entries[j];
      assert forall l :: j < l < n ==> prefix[l] == entries[l];
      AssignAllLastWins(prefix, j);
    }
  }

  /** The names of `s` in order of first occurrence, each once. */
  function FirstOccurrences(s: seq<string>): (r: seq<string>)
    ensures forall x :: x in r <==> x in s
  {
    if s == [] then []
    else
      var n := |s| - 1;
      var prefix := FirstOccurrences(s[..n]);
      assert forall x :: x in s <==> x in s[..n] || x == s[n];
      if s[n] in prefix then prefix else prefix + [s[n]]
  }

  /** The keys appear in the order in which the assignments first use them. */
  lemma {:induction false} AssignAllOrder(entries: seq<SectorEntry>)
    ensures Names(AssignAll(entries)) == FirstOccurrences(Names(entries))
  {
    if entries != [] {
      var n := |entries| - 1;
      AssignAllOrder(entries[..n]);
      PutNames(AssignAll(entries[..n]), entries[n].name, entries[n].keywords);
      assert Names(entries)[..n] == Names(entries[..n]);
    }
  }

  /** A row of the sector CSV after column cleaning; a missing cell is `None`. */
  datatype SectorRecord = SectorRecord(sector: Option<string>, keywordCell: Option<string>)

  /** A row that `load_sector_dictionary` can read without raising. */
  predicate WellFormed(row: SectorRecord) {
    row.sector.Some? && row.keywordCell.Some?
  }

  /** Why `load_sector_dictionary` gave up: the first row with an empty cell. */
  datatype LoadError = MissingCell(row: nat)

  /** What a row assigns: its stripped sector name and its parsed keywords. */
  function RowEntry(row: SectorRecord, lower: string -> string): (e: SectorEntry)
    requires WellFormed(row)
  {
    SectorEntry(Strip(row.sector.value), ParseKeywordList(row.keywordCell.value, lower))
  }

  function RowEntries(rows: seq<SectorRecord>, lower: string -> string): (r: seq<SectorEntry>)
    requires forall i :: 0 <= i < |rows| ==> WellFormed(rows[i])
    ensures |r| == |rows|
  {
    seq(|rows|, i requires 0 <= i < |rows| => RowEntry(rows[i], lower))
  }

  /**
   * `load_sector_dictionary` on its rows: strip the sector name, parse the
   * keywords and assign them, row by row; a missing cell raises.
   */
  method LoadSectorDictionary(rows: seq<SectorRecord>, lower: string -> string) returns (r: Result<SectorMap, LoadError>)
    ensures r.Success? <==> forall i :: 0 <= i < |rows| ==> WellFormed(rows[i])
    ensures r.Success? ==> r.value == AssignAll(RowEntries(rows, lower))
    ensures r.Failure? ==> && r.error.row < |rows| && !WellFormed(rows[r.error.row])
                           && forall i :: 0 <= i < r.error.row ==> WellFormed(rows[i])
  {
    var sectorDict: SectorMap := [];
    var i := 0;
    while i < |rows|
      invariant 0 <= i <= |rows|
      invariant forall j :: 0 <= j < i ==> WellFormed(rows[j])
      invariant sectorDict == AssignAll(RowEntries(rows[..i], lower))
    {
      var row := rows[i];
      if row.sector.None? || row.keywordCell.None? {
        return Failure(MissingCell(i));
      }
      var sector := Strip(row.sector.value);
      var keywords := ParseKeywordList(row.keywordCell.value, lower);
      AssignRowStep(rows, i, lower);
      sectorDict := Put(sectorDict, sector, keywords);
      i := i + 1;
    }
    assert rows[..i] == rows;
    return Success(sectorDict);
  }

  /** Reading one more row assigns its stripped sector name to its parsed keywords. */
  lemma AssignRowStep(rows: seq<SectorRecord>, i: nat, lower: string -> string)
    requires i < |rows|
    requires forall j :: 0 <= j <= i ==> WellFormed(rows[j])
    ensures AssignAll(RowEntries(rows[..i + 1], lower))
            == Put(AssignAll(RowEntries(rows[..i], lower)),
                   Strip(rows[i].sector.value), ParseKeywordList(rows[i].keywordCell.value, lower))
  {
    var entries := RowEntries(rows[..i + 1], lower);
    assert entries[..i] == RowEntries(rows[..i], lower);
    assert entries[i] == RowEntry(rows[i], lower);
  }
}
