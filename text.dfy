/**
 * The string operations the loaders apply to CSV cells and column headers:
 * Python's `str.strip()`, `str.split(",")` and the column-name cleaning of
 * `clean_column_names` (strip, then every space becomes an underscore).
 */
module Text {

  /** The characters for which Python's `str.isspace()` holds; `strip()` removes exactly these. */
  predicate IsSpace(c: char) {
    ('\U{9}' <= c <= '\U{D}') || ('\U{1C}' <= c <= '\U{20}')
    || c == '\U{85}' || c == '\U{A0}' || c == '\U{1680}'
    || ('\U{2000}' <= c <= '\U{200A}')
    || c == '\U{2028}' || c == '\U{2029}' || c == '\U{202F}' || c == '\U{205F}' || c == '\U{3000}'
  }

  /** A string with no white space at either end. */
  predicate IsTrimmed(s: string) {
    s == [] || (!IsSpace(s[0]) && !IsSpace(s[|s| - 1]))
  }

  /** Number of white-space characters at the start of `s`. */
  function LeadingSpaces(s: string): (n: nat)
    ensures n <= |s|
    ensures forall k :: 0 <= k < n ==> IsSpace(s[k])
    ensures n < |s| ==> !IsSpace(s[n])
  {
    if s == [] || !IsSpace(s[0]) then 0 else 1 + LeadingSpaces(s[1..])
  }

  /** Number of white-space characters at the end of `s`. */
  function TrailingSpaces(s: string): (n: nat)
    ensures n <= |s|
    ensures forall k :: |s| - n <= k < |s| ==> IsSpace(s[k])
    ensures n < |s| ==> !IsSpace(s[|s| - 1 - n])
  {
    if s == [] || !IsSpace(s[|s| - 1]) then 0 else 1 + TrailingSpaces(s[..|s| - 1])
  }

  /**
   * Python's `s.strip()`: the infix of `s` that remains once the white space
   * at both ends is removed.
   */
  function Strip(s: string): (r: string)
    ensures |r| <= |s|
  {
    if s == [] then []
    else if IsSpace(s[0]) then Strip(s[1..])
    else if IsSpace(s[|s| - 1]) then Strip(s[..|s| - 1])
    else s
  }

  /**
   * What `strip()` removes is white space and what it keeps is the rest, in
   * place; it returns "" exactly for an all-white-space string.
   */
  lemma {:induction false} StripInfix(s: string)
    ensures LeadingSpaces(s) + |Strip(s)| <= |s|
    ensures Strip(s) == s[LeadingSpaces(s)..LeadingSpaces(s) + |Strip(s)|]
    ensures forall k :: LeadingSpaces(s) + |Strip(s)| <= k < |s| ==> IsSpace(s[k])
    ensures Strip(s) == [] <==> forall k :: 0 <= k < |s| ==> IsSpace(s[k])
  {
    if s == [] {
    } else if IsSpace(s[0]) {
      var t := s[1..];
      StripInfix(t);
      assert LeadingSpaces(s) == 1 + LeadingSpaces(t);
      assert forall k :: 1 <= k < |s| ==> s[k] == t[k - 1];
    } else if IsSpace(s[|s| - 1]) {
      var t := s[..|s| - 1];
      StripInfix(t);
      assert t[0] == s[0];
      assert LeadingSpaces(s) == 0 == LeadingSpaces(t);
      assert forall k :: 0 <= k < |t| ==> s[k] == t[k];
    } else {
      assert LeadingSpaces(s) == 0;
    }
  }

  /** The result of `strip()` has no white space at either end. */
  lemma {:induction false} StripIsTrimmed(s: string)
    ensures IsTrimmed(Strip(s))
  {
    if s != [] {
      if IsSpace(s[0]) {
        StripIsTrimmed(s[1..]);
      } else if IsSpace(s[|s| - 1]) {
        StripIsTrimmed(s[..|s| - 1]);
      }
    }
  }

  /** Stripping a string that has no white space at its ends leaves it alone. */
  lemma StripTrimmed(s: string)
    requires IsTrimmed(s)
    ensures Strip(s) == s
  {
    assert LeadingSpaces(s) == 0;
    assert TrailingSpaces(s) == 0;
  }

  /**
   * Python's `s.split(sep)` with an explicit one-character separator: the
   * pieces between separators, always at least one (`"".split(",") == [""]`).
   */
  function Split(s: string, sep: char): (r: seq<string>)
    ensures |r| >= 1
    ensures forall i :: 0 <= i < |r| ==> sep !in r[i]
  {
    if s == [] then [[]]
    else
      var rest := Split(s[1..], sep);
      if s[0] == sep then [[]] + rest
      else [[s[0]] + rest[0]] + rest[1..]
  }

  /** Python's `sep.join(pieces)`. */
  function Join(pieces: seq<string>, sep: char): string {
    if pieces == [] then []
    else if |pieces| == 1 then pieces[0]
    else pieces[0] + [sep] + Join(pieces[1..], sep)
  }

  /** Joining the pieces of a split gives back the original text. */
  lemma {:induction false} JoinSplit(s: string, sep: char)
    ensures Join(Split(s, sep), sep) == s
  {
    if s != [] {
      var rest := Split(s[1..], sep);
      JoinSplit(s[1..], sep);
      if s[0] == sep {
        assert Split(s, sep) == [[]] + rest;
      } else {
        var r := Split(s, sep);
        assert r == [[s[0]] + rest[0]] + rest[1..];
        if |rest| == 1 {
          assert Join(rest, sep) == rest[0];
        } else {
          assert Join(rest, sep) == rest[0] + [sep] + Join(rest[1..], sep);
          assert r[1..] == rest[1..];
        }
      }
    }
  }

  /** Splitting a separator-free prefix followed by more text. */
  lemma {:induction false} SplitPrefix(p: string, s: string, sep: char)
    requires sep !in p
    ensures Split(p + s, sep) == [p + Split(s, sep)[0]] + Split(s, sep)[1..]
  {
    if p != [] {
      assert (p + s)[1..] == p[1..] + s;
      SplitPrefix(p[1..], s, sep);
      assert [p[0]] + (p[1..] + Split(s, sep)[0]) == p + Split(s, sep)[0];
    } else {
      var r := Split(s, sep);
      assert p + s == s && p + r[0] == r[0];
      assert r == [r[0]] + r[1..];
    }
  }

  /** Splitting a join of separator-free pieces gives back the pieces. */
  lemma {:induction false} SplitJoin(pieces: seq<string>, sep: char)
    requires |pieces| >= 1
    requires forall i :: 0 <= i < |pieces| ==> sep !in pieces[i]
    ensures Split(Join(pieces, sep), sep) == pieces
  {
    if |pieces| == 1 {
      SplitPrefix(pieces[0], [], sep);
      assert pieces[0] + [] == pieces[0];
    } else {
      var tail := Join(pieces[1..], sep);
      SplitJoin(pieces[1..], sep);
      assert Split([sep] + tail, sep) == [[]] + pieces[1..];
      assert pieces[0] + [sep] + tail == pieces[0] + ([sep] + tail);
      SplitPrefix(pieces[0], [sep] + tail, sep);
      assert pieces[0] + [] == pieces[0];
    }
  }

  /** Every space becomes an underscore; other characters are kept. */
  function ReplaceSpaces(s: string): (r: string)
    ensures |r| == |s|
    ensures ' ' !in r
    ensures forall i :: 0 <= i < |s| && s[i] == ' ' ==> r[i] == '_'
    ensures forall i :: 0 <= i < |s| && s[i] != ' ' ==> r[i] == s[i]
  {
    seq(|s|, i requires 0 <= i < |s| => if s[i] == ' ' then '_' else s[i])
  }

  /** The column-name cleaning of `clean_column_names`: strip, then spaces to underscores. */
  function NormalizeColumnName(name: string): (r: string)
    ensures ' ' !in r
    ensures IsTrimmed(r)
    ensures |r| == |Strip(name)|
    ensures forall i :: 0 <= i < |r| ==> r[i] == if Strip(name)[i] == ' ' then '_' else Strip(name)[i]
  {
    StripIsTrimmed(name);
    ReplaceSpaces(Strip(name))
  }

  /** `clean_column_names` applied to a whole header row. */
  function CleanColumnNames(columns: seq<string>): (r: seq<string>)
    ensures |r| == |columns|
    ensures forall i :: 0 <= i < |r| ==> r[i] == NormalizeColumnName(columns[i])
    ensures forall i :: 0 <= i < |r| ==> ' ' !in r[i] && IsTrimmed(r[i])
  {
    seq(|columns|, i requires 0 <= i < |columns| => NormalizeColumnName(columns[i]))
  }

  /** Cleaning an already clean column name changes nothing. */
  lemma NormalizeIdempotent(name: string)
    ensures NormalizeColumnName(NormalizeColumnName(name)) == NormalizeColumnName(name)
  {
    var r := NormalizeColumnName(name);
    StripTrimmed(r);
    assert ReplaceSpaces(r) == r;
  }

  /** The header spelling the loaders rely on: " Từ khóa " becomes "Từ_khóa". */
  lemma NormalizeKeywordHeader()
    ensures NormalizeColumnName(" Từ khóa ") == "Từ_khóa"
  {
    var s := " Từ khóa ";
    assert LeadingSpaces(s) == 1;
    var t := s[1..];
    assert t == "Từ khóa ";
    assert TrailingSpaces(t) == 1;
    assert Strip(s) == "Từ khóa";
  }
}
