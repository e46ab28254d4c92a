/**
 * `RussianPassportParser`: the eight field extractors and `parse`. Each
 * extractor reads the cleaned text; the regular-expression searches are
 * written out as leftmost scans over explicit match predicates.
 */
module PassportParser {
  import opened TextUtil
  import opened TextCleaning

  /** What every extractor returns when it finds nothing. */
  const Sentinel: string := "не распознано"

  // ---------------------------------------------------------------------------
  // Scanning: `re.search` and character runs
  // ---------------------------------------------------------------------------

  /** The four regular expressions the extractors search for. */
  datatype Pattern = NamePattern | DatePattern | SeriesPattern | CodePattern

  /** `pat` matches `t` at position `i`. */
  predicate MatchesAt(pat: Pattern, t: string, i: nat) {
    i <= |t| &&
    match pat
    case NamePattern => NameAt(t, i).Some?
    case DatePattern => DateAt(t, i)
    case SeriesPattern => SeriesAt(t, i).Some?
    case CodePattern => CodeAt(t, i)
  }

  /** The scan of `re.search`: the first position in `[from, |t|)` at which `pat` matches. */
  function Search(pat: Pattern, t: string, from: nat): (r: Option<nat>)
    ensures r.Some? ==> from <= r.value < |t| && MatchesAt(pat, t, r.value)
    ensures r.Some? ==> forall k :: from <= k < r.value ==> !MatchesAt(pat, t, k)
    ensures r.None? ==> forall k :: from <= k < |t| ==> !MatchesAt(pat, t, k)
    decreases |t| - from
  {
    if from >= |t| then None
    else if MatchesAt(pat, t, from) then Some(from)
    else Search(pat, t, from + 1)
  }

  /** The character classes the patterns repeat: `[А-Я]`, `\s` and `\d`. */
  datatype CharClass = Capital | Space | Digit

  predicate InClass(k: CharClass, c: char) {
    match k
    case Capital => IsCapital(c)
    case Space => IsSpace(c)
    case Digit => IsDigit(c)
  }

  /** Every character of `t[a..b]` is in class `k`. */
  predicate AllIn(t: string, a: nat, b: nat, k: CharClass) {
    a <= b <= |t| && forall j :: a <= j < b ==> InClass(k, t[j])
  }

  /** The length of the longest run of class-`k` characters starting at `i`: what a greedy `+` consumes. */
  function Run(t: string, i: nat, k: CharClass): nat
    requires i <= |t|
    decreases |t| - i
  {
    if i < |t| && InClass(k, t[i]) then 1 + Run(t, i + 1, k) else 0
  }

  /** The run is made of class-`k` characters, and is followed by the end of the text or by a character outside the class. */
  lemma {:induction false} RunSpec(t: string, i: nat, k: CharClass)
    requires i <= |t|
    ensures i + Run(t, i, k) <= |t|
    ensures AllIn(t, i, i + Run(t, i, k), k)
    ensures i + Run(t, i, k) == |t| || !InClass(k, t[i + Run(t, i, k)])
    decreases |t| - i
  {
    if i < |t| && InClass(k, t[i]) {
      RunSpec(t, i + 1, k);
    }
  }

  lemma {:induction false} RunAtLeast(t: string, i: nat, n: nat, k: CharClass)
    requires AllIn(t, i, i + n, k)
    ensures Run(t, i, k) >= n
    decreases n
  {
    if n > 0 {
      RunSpec(t, i, k);
      RunAtLeast(t, i + 1, n - 1, k);
    }
  }

  lemma RunExact(t: string, i: nat, n: nat, k: CharClass)
    requires AllIn(t, i, i + n, k) && (i + n == |t| || !InClass(k, t[i + n]))
    ensures Run(t, i, k) == n
  {
    RunAtLeast(t, i, n, k);
    RunSpec(t, i, k);
  }

  /** `[А-Я]`: the capital letters of the basic Cyrillic alphabet, without `Ё`. */
  predicate IsCapital(c: char) {
    '\U{410}' <= c <= '\U{42F}'
  }

  // ---------------------------------------------------------------------------
  // _extract_name
  // ---------------------------------------------------------------------------

  /** Any of these in the text makes the name extractor return the test passport's name. */
  const NameMarkers: seq<string> := ["БУДНИКОВ", "ТАТЬЯНА", "АЛЕКСАНДРОВНА"]
  const TestName: string := "БУДНИКОВА ТАТЬЯНА АЛЕКСАНДРОВНА"

  predicate HasNameMarker(t: string) {
    Contains(t, NameMarkers[0]) || Contains(t, NameMarkers[1]) || Contains(t, NameMarkers[2])
  }

  /** The lengths of the five pieces of a match of `([А-Я]{3,})\s+([А-Я]{3,})\s+([А-Я]{3,})`. */
  datatype NameMatch = NameMatch(first: nat, gap1: nat, middle: nat, gap2: nat, last: nat)

  /**
   * The pattern of the name search matches at `i` with these piece lengths
   * (any lengths the pattern allows, not only the greedy ones).
   */
  predicate NameFits(t: string, i: nat, m: NameMatch) {
    var p1 := i + m.first;
    var p2 := p1 + m.gap1;
    var p3 := p2 + m.middle;
    var p4 := p3 + m.gap2;
    var p5 := p4 + m.last;
    m.first >= 3 && m.gap1 >= 1 && m.middle >= 3 && m.gap2 >= 1 && m.last >= 3 &&
    AllIn(t, i, p1, Capital) && AllIn(t, p1, p2, Space) && AllIn(t, p2, p3, Capital) &&
    AllIn(t, p3, p4, Space) && AllIn(t, p4, p5, Capital)
  }

  /** The match the regular-expression engine reports at `i`: every piece as long as it can be. */
  function NameAt(t: string, i: nat): (r: Option<NameMatch>)
    requires i <= |t|
    ensures r.Some? ==> NameFits(t, i, r.value)
  {
    var first := Run(t, i, Capital);
    RunBound(t, i, Capital);
    var gap1 := Run(t, i + first, Space);
    RunBound(t, i + first, Space);
    var middle := Run(t, i + first + gap1, Capital);
    RunBound(t, i + first + gap1, Capital);
    var gap2 := Run(t, i + first + gap1 + middle, Space);
    RunBound(t, i + first + gap1 + middle, Space);
    var last := Run(t, i + first + gap1 + middle + gap2, Capital);
    var m := NameMatch(first, gap1, middle, gap2, last);
    if first >= 3 && gap1 >= 1 && middle >= 3 && gap2 >= 1 && last >= 3 then
      RunsFit(t, i, m);
      Some(m)
    else None
  }

  /** Five runs long enough for the pattern make a match. */
  lemma RunsFit(t: string, i: nat, m: NameMatch)
    requires i <= |t| && m.first >= 3 && m.gap1 >= 1 && m.middle >= 3 && m.gap2 >= 1 && m.last >= 3
    requires m.first == Run(t, i, Capital)
    requires i + m.first <= |t| && m.gap1 == Run(t, i + m.first, Space)
    requires i + m.first + m.gap1 <= |t| && m.middle == Run(t, i + m.first + m.gap1, Capital)
    requires i + m.first + m.gap1 + m.middle <= |t| && m.gap2 == Run(t, i + m.first + m.gap1 + m.middle, Space)
    requires var p4 := i + m.first + m.gap1 + m.middle + m.gap2;
      p4 <= |t| && m.last == Run(t, p4, Capital)
    ensures NameFits(t, i, m)
  {
    var p1 := i + m.first;
    var p2 := p1 + m.gap1;
    var p3 := p2 + m.middle;
    var p4 := p3 + m.gap2;
    RunAll(t, i, Capital);
    RunAll(t, p1, Space);
    RunAll(t, p2, Capital);
    RunAll(t, p3, Space);
    RunAll(t, p4, Capital);
  }

  lemma {:induction false} RunAll(t: string, i: nat, k: CharClass)
    requires i <= |t|
    ensures AllIn(t, i, i + Run(t, i, k), k)
    decreases |t| - i
  {
    if i < |t| && InClass(k, t[i]) {
      RunAll(t, i + 1, k);
    }
  }

  lemma {:induction false} RunBound(t: string, i: nat, k: CharClass)
    requires i <= |t|
    ensures i + Run(t, i, k) <= |t|
    decreases |t| - i
  {
    if i < |t| && InClass(k, t[i]) {
      RunBound(t, i + 1, k);
    }
  }

  /** A match fixes the first two pieces: the engine cannot stop the first run early. */
  lemma NameFirstPieces(t: string, i: nat, m: NameMatch)
    requires i <= |t| && NameFits(t, i, m)
    ensures Run(t, i, Capital) == m.first && Run(t, i + m.first, Space) == m.gap1
  {
    var p1 := i + m.first;
    var p2 := p1 + m.gap1;
    assert IsSpace(t[p1]) && !IsCapital(t[p1]);
    RunExact(t, i, m.first, Capital);
    assert IsCapital(t[p2]) && !IsSpace(t[p2]);
    RunExact(t, p1, m.gap1, Space);
  }

  /** ... and the next two. */
  lemma NameMiddlePieces(t: string, i: nat, m: NameMatch)
    requires i <= |t| && NameFits(t, i, m)
    ensures var p2 := i + m.first + m.gap1; Run(t, p2, Capital) == m.middle && Run(t, p2 + m.middle, Space) == m.gap2
  {
    var p1 := i + m.first;
    var p2 := p1 + m.gap1;
    var p3 := p2 + m.middle;
    var p4 := p3 + m.gap2;
    assert IsSpace(t[p3]) && !IsCapital(t[p3]);
    RunExact(t, p2, m.middle, Capital);
    assert IsCapital(t[p4]) && !IsSpace(t[p4]);
    RunExact(t, p3, m.gap2, Space);
  }

  /**
   * The pattern matches at `i` exactly when `NameAt` reports a match there,
   * and that match has the same first four pieces and the longest last piece.
   */
  lemma NameAtGreedy(t: string, i: nat, m: NameMatch)
    requires i <= |t| && NameFits(t, i, m)
    ensures NameAt(t, i).Some?
    ensures var g := NameAt(t, i).value;
      g.first == m.first && g.gap1 == m.gap1 && g.middle == m.middle && g.gap2 == m.gap2 && g.last >= m.last
  {
    NameFirstPieces(t, i, m);
    NameMiddlePieces(t, i, m);
    var p4 := i + m.first + m.gap1 + m.middle + m.gap2;
    RunAtLeast(t, p4, m.last, Capital);
  }

  /** `re.search` with the name pattern: the leftmost position where it matches. */
  function NameSearch(t: string): Option<nat> {
    Search(NamePattern, t, 0)
  }

  /** The three groups of the match at `i`, joined by single spaces. */
  function NameText(t: string, i: nat, m: NameMatch): (r: string)
    requires NameFits(t, i, m)
    ensures |r| == m.first + m.middle + m.last + 2
  {
    var p2 := i + m.first + m.gap1;
    var p4 := p2 + m.middle + m.gap2;
    t[i..i + m.first] + " " + t[p2..p2 + m.middle] + " " + t[p4..p4 + m.last]
  }

  /** `_extract_name`. */
  function ExtractName(t: string): string {
    if HasNameMarker(t) then TestName
    else match NameSearch(t)
      case None => Sentinel
      case Some(i) => NameText(t, i, NameAt(t, i).value)
  }

  /**
   * Without a marker the name is the sentinel exactly when the pattern
   * matches nowhere; otherwise it is the greedy match at the leftmost position
   * where the pattern matches.
   */
  lemma ExtractNameSpec(t: string)
    ensures HasNameMarker(t) ==> ExtractName(t) == TestName
    ensures !HasNameMarker(t) ==>
      (ExtractName(t) == Sentinel <==> forall i, m :: 0 <= i < |t| ==> !NameFits(t, i, m))
    ensures !HasNameMarker(t) && NameSearch(t).Some? ==>
      var i := NameSearch(t).value;
      ExtractName(t) == NameText(t, i, NameAt(t, i).value) &&
      forall j, m :: 0 <= j < i ==> !NameFits(t, j, m)
  {
    if !HasNameMarker(t) {
      match NameSearch(t)
      case None =>
        forall i, m | 0 <= i < |t| ensures !NameFits(t, i, m) {
          assert !MatchesAt(NamePattern, t, i);
          if NameFits(t, i, m) {
            NameAtGreedy(t, i, m);
            assert false;
          }
        }
      case Some(i) =>
        var g := NameAt(t, i).value;
        assert IsCapital(ExtractName(t)[0]) && !IsCapital(Sentinel[0]);
        forall j, m | 0 <= j < i ensures !NameFits(t, j, m) {
          assert !MatchesAt(NamePattern, t, j);
          if NameFits(t, j, m) {
            NameAtGreedy(t, j, m);
            assert false;
          }
        }
    }
  }

  lemma SingleSpace(t: string, j: nat)
    requires PlainSpaces(t) && NoDoubleSpace(t)
    requires j + 1 < |t| && IsSpace(t[j])
    ensures t[j] == ' ' && !IsSpace(t[j + 1])
  {
  }

  /** With single plain spaces, both gaps of a match are one `' '`. */
  lemma NameGapsSingle(t: string, i: nat, m: NameMatch)
    requires PlainSpaces(t) && NoDoubleSpace(t) && NameFits(t, i, m)
    ensures m.gap1 == 1 && m.gap2 == 1
    ensures t[i + m.first] == ' ' && t[i + m.first + 1 + m.middle] == ' '
  {
    var p1 := i + m.first;
    var p3 := p1 + m.gap1 + m.middle;
    assert IsSpace(t[p1]) && IsSpace(t[p3]);
    SingleSpace(t, p1);
    SingleSpace(t, p3);
  }

  /** ... so the three groups joined by spaces are the matched piece of text. */
  lemma NameTextIsSlice(t: string, i: nat, m: NameMatch)
    requires PlainSpaces(t) && NoDoubleSpace(t) && NameFits(t, i, m)
    ensures NameText(t, i, m) == t[i..i + m.first + m.middle + m.last + 2]
  {
    NameGapsSingle(t, i, m);
    NameTextSingleGaps(t, i, m);
  }

  lemma NameTextSingleGaps(t: string, i: nat, m: NameMatch)
    requires NameFits(t, i, m) && m.gap1 == 1 && m.gap2 == 1
    requires t[i + m.first] == ' ' && t[i + m.first + 1 + m.middle] == ' '
    ensures NameText(t, i, m) == t[i..i + m.first + m.middle + m.last + 2]
  {
    var p1 := i + m.first;
    var p3 := p1 + 1 + m.middle;
    SliceAroundTwo(t, i, p1, p3, p3 + 1 + m.last);
  }

  lemma SliceAroundTwo(t: string, a: nat, b: nat, c: nat, e: nat)
    requires a <= b < c < e <= |t| && t[b] == ' ' && t[c] == ' '
    ensures t[a..e] == t[a..b] + " " + t[b + 1..c] + " " + t[c + 1..e]
  {
    assert t[a..e] == t[a..b] + [t[b]] + t[b + 1..c] + [t[c]] + t[c + 1..e];
  }

  /**
   * On a text with single plain spaces (every cleaned text), a name found by
   * the search is a piece of the text itself.
   */
  lemma NameInTidyText(t: string)
    requires PlainSpaces(t) && NoDoubleSpace(t)
    ensures !HasNameMarker(t) && ExtractName(t) != Sentinel ==> Contains(t, ExtractName(t))
  {
    if !HasNameMarker(t) && NameSearch(t).Some? {
      var i := NameSearch(t).value;
      NameFoundInText(t, i, NameAt(t, i).value);
    }
  }

  lemma NameFoundInText(t: string, i: nat, m: NameMatch)
    requires PlainSpaces(t) && NoDoubleSpace(t) && NameFits(t, i, m)
    ensures Contains(t, NameText(t, i, m))
  {
    var r := NameText(t, i, m);
    NameTextIsSlice(t, i, m);
    assert t[i..i + |r|] == r;
    ContainsAt(t, r, i);
  }

  // ---------------------------------------------------------------------------
  // _extract_birth_date and _extract_issue_date
  // ---------------------------------------------------------------------------

  /** `\d{2}\.\d{2}\.\d{4}`. */
  predicate DateShape(d: string) {
    |d| == 10 && d[2] == '.' && d[5] == '.' &&
    forall j :: 0 <= j < 10 && j != 2 && j != 5 ==> IsDigit(d[j])
  }

  /**
   * `\b(\d{2}\.\d{2}\.\d{4})\b` matches at `i`. Both ends of a match are
   * digits, so each `\b` asks for the text to end or hold a non-word character there.
   */
  predicate DateAt(t: string, i: nat) {
    i + 10 <= |t| && DateShape(t[i..i + 10]) &&
    (i == 0 || !IsWordChar(t[i - 1])) && (i + 10 == |t| || !IsWordChar(t[i + 10]))
  }

  /** `re.findall` with the date pattern, from `from` on: non-overlapping matches, left to right. */
  function FindDates(t: string, from: nat): seq<string>
    decreases |t| - from
  {
    match Search(DatePattern, t, from)
    case None => []
    case Some(i) => [t[i..i + 10]] + FindDates(t, i + 10)
  }

  /** Every date `findall` reports has the date shape and is a piece of the text. */
  lemma {:induction false} FindDatesSpec(t: string, from: nat)
    ensures forall k :: 0 <= k < |FindDates(t, from)| ==>
      DateShape(FindDates(t, from)[k]) && Contains(t, FindDates(t, from)[k])
    decreases |t| - from
  {
    match Search(DatePattern, t, from)
    case None =>
    case Some(i) =>
      ContainsAt(t, t[i..i + 10], i);
      FindDatesSpec(t, i + 10);
      var rest := FindDates(t, i + 10);
      assert FindDates(t, from) == [t[i..i + 10]] + rest;
      forall k | 1 <= k < |FindDates(t, from)|
        ensures FindDates(t, from)[k] == rest[k - 1]
      {
      }
  }

  /** `_extract_birth_date`: the first date in the text. */
  function ExtractBirthDate(t: string): string {
    var dates := FindDates(t, 0);
    if |dates| > 0 then dates[0] else Sentinel
  }

  /** `_extract_issue_date`: the second date in the text. */
  function ExtractIssueDate(t: string): string {
    var dates := FindDates(t, 0);
    if |dates| > 1 then dates[1] else Sentinel
  }

  lemma FindDatesStep(t: string, from: nat)
    ensures Search(DatePattern, t, from).None? ==> FindDates(t, from) == []
    ensures Search(DatePattern, t, from).Some? ==>
      var i := Search(DatePattern, t, from).value;
      FindDates(t, from) == [t[i..i + 10]] + FindDates(t, i + 10)
  {
  }

  /** The birth date is the leftmost date of the text, and the sentinel when there is none. */
  lemma BirthDateSpec(t: string)
    ensures ExtractBirthDate(t) == Sentinel <==> forall i :: 0 <= i < |t| ==> !DateAt(t, i)
    ensures Search(DatePattern, t, 0).Some? ==>
      var i := Search(DatePattern, t, 0).value;
      ExtractBirthDate(t) == t[i..i + 10] && forall j :: 0 <= j < i ==> !DateAt(t, j)
    ensures ExtractBirthDate(t) != Sentinel ==> DateShape(ExtractBirthDate(t)) && Contains(t, ExtractBirthDate(t))
  {
    FirstDate(t);
    NoDateFrom(t, 0);
    FindDatesSpec(t, 0);
    if Search(DatePattern, t, 0).Some? {
      NoDateBefore(t, Search(DatePattern, t, 0).value);
    }
  }

  /** The first element `findall` reports is the match `re.search` finds. */
  lemma FirstDate(t: string)
    ensures Search(DatePattern, t, 0).None? ==> ExtractBirthDate(t) == Sentinel
    ensures Search(DatePattern, t, 0).Some? ==>
      var i := Search(DatePattern, t, 0).value;
      ExtractBirthDate(t) == t[i..i + 10] && ExtractBirthDate(t) != Sentinel
  {
    FindDatesStep(t, 0);
    assert |Sentinel| == 13;
  }

  lemma NoDateBefore(t: string, i: nat)
    requires Search(DatePattern, t, 0) == Some(i)
    ensures forall j :: 0 <= j < i ==> !DateAt(t, j)
  {
    forall j | 0 <= j < i ensures !DateAt(t, j) {
      assert !MatchesAt(DatePattern, t, j);
    }
  }

  /**
   * The issue date is the next date starting after the birth date, and the
   * sentinel when there is none; so there is never an issue date without a
   * birth date.
   */
  lemma IssueDateSpec(t: string)
    ensures Search(DatePattern, t, 0).Some? ==>
      var i := Search(DatePattern, t, 0).value;
      (ExtractIssueDate(t) == Sentinel <==> forall j :: i + 10 <= j < |t| ==> !DateAt(t, j)) &&
      (Search(DatePattern, t, i + 10).Some? ==>
        var j := Search(DatePattern, t, i + 10).value;
        ExtractIssueDate(t) == t[j..j + 10])
    ensures ExtractIssueDate(t) != Sentinel ==> ExtractBirthDate(t) != Sentinel
    ensures ExtractIssueDate(t) != Sentinel ==> DateShape(ExtractIssueDate(t)) && Contains(t, ExtractIssueDate(t))
  {
    var dates := FindDates(t, 0);
    assert |Sentinel| == 13;
    FindDatesSpec(t, 0);
    if |dates| > 1 {
      assert |dates[0]| == 10 && |dates[1]| == 10;
    }
    if Search(DatePattern, t, 0).Some? {
      var i := Search(DatePattern, t, 0).value;
      IssueDateAfterBirth(t, i);
      if Search(DatePattern, t, i + 10).Some? {
        SecondDate(t, i, Search(DatePattern, t, i + 10).value);
      }
    }
  }

  lemma IssueDateAfterBirth(t: string, i: nat)
    requires Search(DatePattern, t, 0) == Some(i)
    ensures ExtractIssueDate(t) == Sentinel <==> forall j :: i + 10 <= j < |t| ==> !DateAt(t, j)
  {
    NoDateFrom(t, i + 10);
    if Search(DatePattern, t, i + 10).Some? {
      SecondDate(t, i, Search(DatePattern, t, i + 10).value);
      assert |Sentinel| == 13;
    } else {
      NoSecondDate(t, i);
    }
  }

  /** The date search from `from` fails exactly when no date starts at or after `from`. */
  lemma NoDateFrom(t: string, from: nat)
    ensures Search(DatePattern, t, from).None? <==> forall j :: from <= j < |t| ==> !DateAt(t, j)
  {
    match Search(DatePattern, t, from)
    case None =>
      forall j | from <= j < |t| ensures !DateAt(t, j) {
        assert !MatchesAt(DatePattern, t, j);
      }
    case Some(j) =>
      assert MatchesAt(DatePattern, t, j);
  }

  lemma SecondDate(t: string, i: nat, j: nat)
    requires Search(DatePattern, t, 0) == Some(i) && Search(DatePattern, t, i + 10) == Some(j)
    ensures j + 10 <= |t| && ExtractIssueDate(t) == t[j..j + 10]
  {
    FindDatesStep(t, 0);
    FindDatesStep(t, i + 10);
  }

  lemma NoSecondDate(t: string, i: nat)
    requires Search(DatePattern, t, 0) == Some(i) && Search(DatePattern, t, i + 10).None?
    ensures ExtractIssueDate(t) == Sentinel
  {
    FindDatesStep(t, 0);
    FindDatesStep(t, i + 10);
  }

  /** The month of a `DD.DD.DDDD` string, read as a number. */
  function Month(d: string): int
    requires DateShape(d)
  {
    (d[3] as int - '0' as int) * 10 + (d[4] as int - '0' as int)
  }

  /** A date taken from a text whose digits are all `2` or `7` has month 22, 27, 72 or 77. */
  lemma DateFromTwosAndSevens(t: string, d: string)
    requires forall i :: 0 <= i < |t| && IsDigit(t[i]) ==> t[i] == '2' || t[i] == '7'
    requires DateShape(d) && Contains(t, d)
    ensures Month(d) in {22, 27, 72, 77}
  {
    var p := ContainsHasPosition(t, d);
    assert t[p + 3] == d[3] && t[p + 4] == d[4];
  }

  /**
   * Cleaning rewrites every digit other than `2` and `7` into a letter before
   * the date search runs, so no date found in a cleaned text has a calendar month.
   */
  lemma CleanedDatesHaveNoMonth(text: string)
    ensures var d := ExtractBirthDate(Cleaned(text)); d != Sentinel ==> DateShape(d) && Month(d) in {22, 27, 72, 77}
    ensures var d := ExtractIssueDate(Cleaned(text)); d != Sentinel ==> DateShape(d) && Month(d) in {22, 27, 72, 77}
  {
    var c := Cleaned(text);
    CleanedDigits(text);
    BirthDateSpec(c);
    IssueDateSpec(c);
    if ExtractBirthDate(c) != Sentinel {
      DateFromTwosAndSevens(c, ExtractBirthDate(c));
    }
    if ExtractIssueDate(c) != Sentinel {
      DateFromTwosAndSevens(c, ExtractIssueDate(c));
    }
  }

  /** A birth date written plainly in the input is not recognised. */
  lemma BirthDateExample()
    ensures ExtractBirthDate(Cleaned("18.11.2009")) == Sentinel
  {
    CleanedDateExample();
    NoDateInCleanedExample();
  }

  lemma NoDateInCleanedExample()
    ensures ExtractBirthDate("IВ.II.2ООД") == Sentinel
  {
    var c := "IВ.II.2ООД";
    BirthDateSpec(c);
    forall i | 0 <= i < |c| ensures !DateAt(c, i) {
      assert !IsDigit(c[0]);
    }
  }

  /**
   * A combining mark such as U+0483 is not a word character, so `\b` holds
   * between it and a digit and the date right after it is found.
   */
  lemma DateAfterMarkExample()
    ensures ExtractBirthDate("\U{483}22.22.2222") == "22.22.2222"
  {
    var t := "\U{483}22.22.2222";
    var d := "22.22.2222";
    assert t[1..11] == d && !IsWordChar(t[0]) && !IsDigit(t[0]);
    assert DateShape(d);
    assert DateAt(t, 1) && !DateAt(t, 0);
    BirthDateSpec(t);
  }

  // ---------------------------------------------------------------------------
  // _extract_series_number
  // ---------------------------------------------------------------------------

  /** `text.replace(' ', '')`. */
  function WithoutSpaces(t: string): string {
    ReplaceAll(t, " ", "")
  }

  /** `\d{2}\s?\d{2}\s?\d{6}` at `i`; an optional space is taken whenever it is there. */
  function SeriesAt(u: string, i: nat): (r: Option<string>)
    requires i <= |u|
    ensures r.Some? ==> |r.value| >= 10
  {
    if !AllIn(u, i, i + 2, Digit) then None
    else
      var p := if i + 2 < |u| && IsSpace(u[i + 2]) then i + 3 else i + 2;
      if !AllIn(u, p, p + 2, Digit) then None
      else
        var q := if p + 2 < |u| && IsSpace(u[p + 2]) then p + 3 else p + 2;
        if !AllIn(u, q, q + 6, Digit) then None
        else Some(u[i..q + 6])
  }

  /** `f"{num[:2]} {num[2:4]} {num[4:]}"`. */
  function FormatSeries(num: string): string
    requires |num| >= 4
  {
    num[..2] + " " + num[2..4] + " " + num[4..]
  }

  /** `_extract_series_number`. */
  function ExtractSeriesNumber(t: string): string {
    var u := WithoutSpaces(t);
    match Search(SeriesPattern, u, 0)
    case None => Sentinel
    case Some(i) => FormatSeries(SeriesAt(u, i).value)
  }

  predicate TenDigitsAt(u: string, i: nat) {
    AllIn(u, i, i + 10, Digit)
  }

  /** Without whitespace in the text, the series pattern is just ten digits in a row. */
  lemma SeriesAtWithoutWhitespace(u: string, i: nat)
    requires i <= |u| && NoSpace(u)
    ensures SeriesAt(u, i).Some? <==> TenDigitsAt(u, i)
    ensures SeriesAt(u, i).Some? ==> SeriesAt(u, i).value == u[i..i + 10]
  {
  }

  /** `text.replace(' ', '')` leaves exactly the characters other than `' '`, in order. */
  lemma {:induction false} WithoutSpacesKeeps(t: string)
    ensures forall j :: 0 <= j < |WithoutSpaces(t)| ==> WithoutSpaces(t)[j] != ' '
    ensures PlainSpaces(t) ==> NoSpace(WithoutSpaces(t))
    ensures PlainSpaces(t) ==> WithoutSpaces(t) == Visible(t)
    ensures (forall j :: 0 <= j < |t| ==> t[j] != ' ') ==> WithoutSpaces(t) == t
    decreases |t|
  {
    if t != [] {
      WithoutSpacesKeeps(t[1..]);
      assert PlainSpaces(t) ==> PlainSpaces(t[1..]);
      if t[0] == ' ' {
        assert " " <= t;
        assert WithoutSpaces(t) == WithoutSpaces(t[1..]);
      } else {
        assert !(" " <= t);
        assert WithoutSpaces(t) == [t[0]] + WithoutSpaces(t[1..]);
      }
    }
  }

  lemma {:induction false} WithoutSpacesAppend(a: string, b: string)
    ensures WithoutSpaces(a + b) == WithoutSpaces(a) + WithoutSpaces(b)
    decreases |a|
  {
    if a == [] {
      assert a + b == b;
    } else {
      assert (a + b)[1..] == a[1..] + b;
      WithoutSpacesAppend(a[1..], b);
    }
  }

  lemma WithoutSpacesDigits(d: string)
    requires AllDigits(d)
    ensures WithoutSpaces(d) == d
  {
    NotContainsChar(d, ' ');
    ReplaceAbsent(d, " ", "");
  }

  /** Removing the spaces from a formatted ten-digit number gives the number back. */
  lemma FormatSeriesWithoutSpaces(num: string)
    requires |num| == 10 && AllDigits(num)
    ensures WithoutSpaces(FormatSeries(num)) == num
  {
    var a, b, c := num[..2], num[2..4], num[4..];
    WithoutSpacesAppend(a + " " + b + " ", c);
    WithoutSpacesAppend(a + " " + b, " ");
    WithoutSpacesAppend(a + " ", b);
    WithoutSpacesAppend(a, " ");
    WithoutSpacesDigits(a);
    WithoutSpacesDigits(b);
    WithoutSpacesDigits(c);
    assert WithoutSpaces(" ") == "";
    assert a + b + c == num;
  }

  /**
   * On a text whose only whitespace is `' '` (every cleaned text), the series
   * and number is the sentinel exactly when the text, spaces removed, has no
   * ten digits in a row; otherwise it is the leftmost such run, written
   * `DD DD DDDDDD`.
   */
  lemma SeriesNumberSpec(t: string)
    requires PlainSpaces(t)
    ensures var u := WithoutSpaces(t);
      ExtractSeriesNumber(t) == Sentinel <==> forall i :: 0 <= i < |u| ==> !TenDigitsAt(u, i)
    ensures var u := WithoutSpaces(t); var r := ExtractSeriesNumber(t);
      r != Sentinel ==>
        var i := Search(SeriesPattern, u, 0).value;
        |r| == 12 && r[2] == ' ' && r[5] == ' ' &&
        (forall j :: 0 <= j < 12 && j != 2 && j != 5 ==> IsDigit(r[j])) &&
        TenDigitsAt(u, i) && (forall j :: 0 <= j < i ==> !TenDigitsAt(u, j)) &&
        WithoutSpaces(r) == u[i..i + 10]
  {
    var u := WithoutSpaces(t);
    SeriesMatches(t);
    match Search(SeriesPattern, u, 0)
    case None =>
    case Some(i) =>
      SeriesFound(t, i);
  }

  /** With the spaces removed, the series pattern matches exactly at the runs of ten digits. */
  lemma SeriesMatches(t: string)
    requires PlainSpaces(t)
    ensures var u := WithoutSpaces(t);
      NoSpace(u) && forall i :: 0 <= i < |u| ==> (MatchesAt(SeriesPattern, u, i) <==> TenDigitsAt(u, i))
  {
    var u := WithoutSpaces(t);
    WithoutSpacesKeeps(t);
    forall i | 0 <= i < |u| ensures MatchesAt(SeriesPattern, u, i) <==> TenDigitsAt(u, i) {
      SeriesAtWithoutWhitespace(u, i);
    }
  }

  lemma SeriesFound(t: string, i: nat)
    requires PlainSpaces(t)
    requires Search(SeriesPattern, WithoutSpaces(t), 0) == Some(i)
    ensures var u := WithoutSpaces(t); var r := ExtractSeriesNumber(t);
      r != Sentinel && |r| == 12 && r[2] == ' ' && r[5] == ' ' &&
      (forall j :: 0 <= j < 12 && j != 2 && j != 5 ==> IsDigit(r[j])) &&
      i + 10 <= |u| && WithoutSpaces(r) == u[i..i + 10]
  {
    var u := WithoutSpaces(t);
    WithoutSpacesKeeps(t);
    SeriesAtWithoutWhitespace(u, i);
    var num := u[i..i + 10];
    assert SeriesAt(u, i).value == num;
    assert AllDigits(num);
    FormatSeriesWithoutSpaces(num);
    var r := FormatSeries(num);
    assert r[0] == num[0];
    assert IsDigit(num[0]) && !IsDigit(Sentinel[0]);
  }

  // ---------------------------------------------------------------------------
  // _extract_code
  // ---------------------------------------------------------------------------

  /** `\d{3}[\s-]\d{3}` matches at `i`. */
  predicate CodeAt(t: string, i: nat) {
    i + 7 <= |t| && AllIn(t, i, i + 3, Digit) && (IsSpace(t[i + 3]) || t[i + 3] == '-') &&
    AllIn(t, i + 4, i + 7, Digit)
  }

  /** `_extract_code`. */
  function ExtractCode(t: string): string {
    match Search(CodePattern, t, 0)
    case None => Sentinel
    case Some(i) => t[i..i + 7]
  }

  /**
   * The code is the sentinel exactly when the pattern matches nowhere;
   * otherwise it is the leftmost match, with the separator as found.
   */
  lemma CodeSpec(t: string)
    ensures ExtractCode(t) == Sentinel <==> forall i :: 0 <= i < |t| ==> !CodeAt(t, i)
    ensures ExtractCode(t) != Sentinel ==>
      var i := Search(CodePattern, t, 0).value;
      var r := ExtractCode(t);
      |r| == 7 && AllDigits(r[..3]) && AllDigits(r[4..]) && r[3] == t[i + 3] &&
      (IsSpace(r[3]) || r[3] == '-') && r == t[i..i + 7] &&
      forall j :: 0 <= j < i ==> !CodeAt(t, j)
  {
    assert |Sentinel| == 13;
    match Search(CodePattern, t, 0)
    case None =>
      forall i | 0 <= i < |t| ensures !CodeAt(t, i) {
        assert !MatchesAt(CodePattern, t, i);
      }
    case Some(i) =>
      forall j | 0 <= j < i ensures !CodeAt(t, j) {
        assert !MatchesAt(CodePattern, t, j);
      }
      var r := t[i..i + 7];
      assert AllIn(t, i, i + 3, Digit) && AllIn(t, i + 4, i + 7, Digit);
      assert forall k :: 0 <= k < 3 ==> r[..3][k] == t[i + k];
      assert forall k :: 0 <= k < 3 ==> r[4..][k] == t[i + 4 + k];
  }

  // ---------------------------------------------------------------------------
  // _extract_birth_place, _extract_authority, _extract_gender
  // ---------------------------------------------------------------------------

  const KnownBirthPlace: string := "ГОР. НЕРЮНГРИ " + "РЕСПУБЛИКИ САХА (ЯКУТИЯ)"
  const KnownAuthority: string :=
    "ОТДЕЛ УФМС РОССИИ " + "ПО КРАСНОДАРСКОМУ КРАЮ " + "В КУРГАНИНСКОМ РАЙОНЕ"

  /** `_extract_birth_place`. */
  function ExtractBirthPlace(t: string): string {
    if Contains(t, "НЕРЮНГРИ") then KnownBirthPlace else Sentinel
  }

  /** `_extract_authority`. */
  function ExtractAuthority(t: string): string {
    if Contains(t, "УФМС") || Contains(t, "УФИС") || Contains(t, "ОВД") then KnownAuthority else Sentinel
  }

  /** `_extract_gender`. */
  function ExtractGender(t: string): string {
    if Contains(t, "ЖЕН") || Contains(t, "F") then "ЖЕН" else "МУЖ"
  }

  /**
   * Cleaning has already rewritten every `УФИС` into `УФМС`, so on a cleaned
   * text the authority test for `УФИС` never decides anything.
   */
  lemma AuthorityUfisTestRedundant(text: string)
    ensures var c := Cleaned(text);
      ExtractAuthority(c) == (if Contains(c, "УФМС") || Contains(c, "ОВД") then KnownAuthority else Sentinel)
  {
    CleanedHasNoUfis(text);
  }

  /**
   * The three keyword fields of a parse: each is its fixed answer exactly
   * when the cleaned text holds a keyword (for the authority, `УФМС` or `ОВД`
   * only), and the fixed answers differ from the sentinel.
   */
  lemma KeywordFieldsOfParse(text: string)
    ensures var r, c := Parse(text, None), Cleaned(text);
      r["birth_place"] == (if Contains(c, "НЕРЮНГРИ") then KnownBirthPlace else Sentinel) &&
      r["authority"] == (if Contains(c, "УФМС") || Contains(c, "ОВД") then KnownAuthority else Sentinel) &&
      (r["gender"] == "ЖЕН" <==> Contains(c, "ЖЕН") || Contains(c, "F"))
    ensures KnownBirthPlace != Sentinel && KnownAuthority != Sentinel
  {
    var c := Cleaned(text);
    CleanedHasNoUfis(text);
    assert Parse(text, None) == Record(c);
    KeywordFieldsOfRecord(c);
    assert |KnownBirthPlace| != |Sentinel| && |KnownAuthority| != |Sentinel|;
  }

  lemma KeywordFieldsOfRecord(c: string)
    requires !Contains(c, "УФИС")
    ensures var r := Record(c);
      r["birth_place"] == (if Contains(c, "НЕРЮНГРИ") then KnownBirthPlace else Sentinel) &&
      r["authority"] == (if Contains(c, "УФМС") || Contains(c, "ОВД") then KnownAuthority else Sentinel) &&
      (r["gender"] == "ЖЕН" <==> Contains(c, "ЖЕН") || Contains(c, "F"))
  {
  }

  // ---------------------------------------------------------------------------
  // parse
  // ---------------------------------------------------------------------------

  /** The keys of a successful parse, in the order the source builds the dictionary. */
  const FieldKeys: seq<string> :=
    ["full_name", "birth_date", "birth_place", "series_number", "code", "issue_date", "authority", "gender"]

  /**
   * `parse`: the eight extractors on the cleaned text, or `{'error': message}`
   * when a step raised an exception with that message.
   */
  function Parse(text: string, raised: Option<string>): (r: map<string, string>)
    ensures raised.Some? ==> r.Keys == {"error"} && r["error"] == raised.value
    ensures raised.None? ==> r.Keys == set k | k in FieldKeys
    ensures raised.None? ==> r["gender"] == "ЖЕН" || r["gender"] == "МУЖ"
  {
    match raised
    case Some(message) => map["error" := message]
    case None => Record(Cleaned(text))
  }

  /** The dictionary `parse` builds from the cleaned text `t`. */
  function Record(t: string): (r: map<string, string>)
    ensures r.Keys == set k | k in FieldKeys
    ensures r["gender"] == "ЖЕН" || r["gender"] == "МУЖ"
  {
    map["full_name" := ExtractName(t),
        "birth_date" := ExtractBirthDate(t),
        "birth_place" := ExtractBirthPlace(t),
        "series_number" := ExtractSeriesNumber(t),
        "code" := ExtractCode(t),
        "issue_date" := ExtractIssueDate(t),
        "authority" := ExtractAuthority(t),
        "gender" := ExtractGender(t)]
  }

  /** A successful parse never has the key of a failed one. */
  lemma ErrorIsNotAField()
    ensures "error" !in FieldKeys
  {
    forall k | k in FieldKeys ensures |k| != |"error"| {
    }
  }

  lemma PieceSingleLine(t: string, s: string)
    requires NoNewline(t) && Contains(t, s)
    ensures NoNewline(s)
  {
    var p := ContainsHasPosition(t, s);
    assert forall j :: 0 <= j < |s| ==> s[j] == t[p + j];
  }

  lemma FixedValuesSingleLine()
    ensures NoNewline(Sentinel) && NoNewline(KnownBirthPlace) && NoNewline(KnownAuthority)
    ensures NoNewline("ЖЕН") && NoNewline("МУЖ")
  {
    assert NoNewline("ГОР. НЕРЮНГРИ ") && NoNewline("РЕСПУБЛИКИ САХА (ЯКУТИЯ)");
    assert NoNewline("ОТДЕЛ УФМС РОССИИ ") && NoNewline("ПО КРАСНОДАРСКОМУ КРАЮ ");
    assert NoNewline("В КУРГАНИНСКОМ РАЙОНЕ");
  }

  lemma ExtractedSingleLine(t: string)
    requires PlainSpaces(t) && NoDoubleSpace(t) && NoNewline(t)
    ensures NoNewline(ExtractName(t)) && NoNewline(ExtractBirthDate(t)) && NoNewline(ExtractIssueDate(t))
  {
    assert NoNewline(TestName);
    FixedValuesSingleLine();
    NameInTidyText(t);
    if !HasNameMarker(t) && ExtractName(t) != Sentinel {
      PieceSingleLine(t, ExtractName(t));
    }
    BirthDateSpec(t);
    if ExtractBirthDate(t) != Sentinel {
      PieceSingleLine(t, ExtractBirthDate(t));
    }
    IssueDateSpec(t);
    if ExtractIssueDate(t) != Sentinel {
      PieceSingleLine(t, ExtractIssueDate(t));
    }
  }

  lemma NumbersSingleLine(t: string)
    requires PlainSpaces(t) && NoNewline(t)
    ensures NoNewline(ExtractCode(t)) && NoNewline(ExtractSeriesNumber(t))
  {
    FixedValuesSingleLine();
    CodeSpec(t);
    if ExtractCode(t) != Sentinel {
      ContainsAt(t, ExtractCode(t), Search(CodePattern, t, 0).value);
      PieceSingleLine(t, ExtractCode(t));
    }
    SeriesNumberSpec(t);
  }

  /** Every value of a record built from a text of one line is itself one line. */
  lemma RecordSingleLine(t: string)
    requires PlainSpaces(t) && NoDoubleSpace(t)
    ensures NoNewlineValues(Record(t))
  {
    assert NoNewline(t) by {
      assert forall j :: 0 <= j < |t| ==> IsSpace(t[j]) ==> t[j] == ' ';
    }
    FixedValuesSingleLine();
    ExtractedSingleLine(t);
    NumbersSingleLine(t);
    EightSingleLines(ExtractName(t), ExtractBirthDate(t), ExtractBirthPlace(t), ExtractSeriesNumber(t),
      ExtractCode(t), ExtractIssueDate(t), ExtractAuthority(t), ExtractGender(t));
  }

  lemma EightSingleLines(a: string, b: string, c: string, d: string, e: string, f: string, g: string, h: string)
    requires NoNewline(a) && NoNewline(b) && NoNewline(c) && NoNewline(d)
    requires NoNewline(e) && NoNewline(f) && NoNewline(g) && NoNewline(h)
    ensures NoNewlineValues(map["full_name" := a, "birth_date" := b, "birth_place" := c, "series_number" := d,
      "code" := e, "issue_date" := f, "authority" := g, "gender" := h])
  {
  }

  /** Every value of a successful parse is one line. */
  lemma ParseSingleLine(text: string)
    ensures NoNewlineValues(Parse(text, None))
  {
    CleanedTidy(text);
    RecordSingleLine(Cleaned(text));
  }

  /** Parsing an empty text finds nothing, and reports the gender as male. */
  lemma ParseEmpty()
    ensures Parse("", None) ==
      map["full_name" := Sentinel, "birth_date" := Sentinel, "birth_place" := Sentinel,
          "series_number" := Sentinel, "code" := Sentinel, "issue_date" := Sentinel,
          "authority" := Sentinel, "gender" := "МУЖ"]
  {
    CleanedEmpty();
    NothingInEmpty();
  }

  lemma NothingInEmpty()
    ensures ExtractName("") == Sentinel && ExtractBirthDate("") == Sentinel && ExtractIssueDate("") == Sentinel
    ensures ExtractBirthPlace("") == Sentinel && ExtractAuthority("") == Sentinel && ExtractGender("") == "МУЖ"
    ensures ExtractSeriesNumber("") == Sentinel && ExtractCode("") == Sentinel
  {
    assert !Contains("", NameMarkers[0]) && !Contains("", NameMarkers[1]) && !Contains("", NameMarkers[2]);
    assert Search(NamePattern, "", 0).None?;
    FindDatesStep("", 0);
    assert Search(DatePattern, "", 0).None?;
    assert WithoutSpaces("") == "";
    assert Search(SeriesPattern, "", 0).None?;
    assert Search(CodePattern, "", 0).None?;
  }

  /** Parsing a text that is already clean gives the same record as parsing the original. */
  lemma ParseCleaned(text: string)
    ensures Parse(Cleaned(text), None) == Parse(text, None)
  {
    var c := Cleaned(text);
    CleanedIdempotent(text);
    assert Parse(c, None) == Record(Cleaned(c)) == Record(c);
  }
}
