/**
 * `RussianPassportParser._clean_text`: collapse every whitespace run to one
 * space, upper-case, strip both ends, then rewrite the text once per entry of
 * the fixed OCR-correction table, in the table's insertion order.
 */
module TextCleaning {
  import opened TextUtil

  // ---------------------------------------------------------------------------
  // Whitespace and case
  // ---------------------------------------------------------------------------

  /** `str.upper()` as a character map: `a`-`z`, U+0430-U+044F and U+0450-U+045F; every other character is kept. */
  function UpperChar(c: char): (u: char)
    ensures (IsSpace(c) || IsSpace(u)) ==> u == c
    ensures IsDigit(c) || IsDigit(u) ==> u == c
  {
    if 'a' <= c <= 'z' then (c as int - 32) as char
    else if '\U{430}' <= c <= '\U{44F}' then (c as int - 32) as char
    else if '\U{450}' <= c <= '\U{45F}' then (c as int - 80) as char
    else c
  }

  lemma UpperCharIdempotent(c: char)
    ensures UpperChar(UpperChar(c)) == UpperChar(c)
  {
  }

  function UpperAll(s: string): (r: string)
    ensures |r| == |s| && forall i :: 0 <= i < |s| ==> r[i] == UpperChar(s[i])
  {
    seq(|s|, i requires 0 <= i < |s| => UpperChar(s[i]))
  }

  /** `re.sub(r'\s+', ' ', s)`: every maximal whitespace run becomes one space. */
  function Collapse(s: string): string
    decreases |s|
  {
    if s == [] then []
    else if IsSpace(s[0]) then [' '] + Collapse(StripLeft(s[1..]))
    else [s[0]] + Collapse(s[1..])
  }

  /** `str.lstrip()`; also what `\s+` consumes after the first whitespace character. */
  function StripLeft(s: string): (r: string)
    ensures |r| <= |s| && r == s[|s| - |r|..]
    ensures r == [] || !IsSpace(r[0])
    ensures forall i :: 0 <= i < |s| - |r| ==> IsSpace(s[i])
    decreases |s|
  {
    if s != [] && IsSpace(s[0]) then StripLeft(s[1..]) else s
  }

  /** `str.rstrip()`. */
  function StripRight(s: string): (r: string)
    ensures |r| <= |s| && r == s[..|r|]
    ensures r == [] || !IsSpace(r[|r| - 1])
    ensures forall i :: |r| <= i < |s| ==> IsSpace(s[i])
    decreases |s|
  {
    if s != [] && IsSpace(s[|s| - 1]) then StripRight(s[..|s| - 1]) else s
  }

  function Strip(s: string): string {
    StripRight(StripLeft(s))
  }

  /** The first two statements of `_clean_text`. */
  function Normalize(text: string): string {
    Strip(UpperAll(Collapse(text)))
  }

  /** Only the characters `\s` does not match, with whitespace removed entirely. */
  function Visible(s: string): string
    decreases |s|
  {
    if s == [] then [] else (if IsSpace(s[0]) then [] else [s[0]]) + Visible(s[1..])
  }

  predicate PlainSpaces(s: string) {
    forall i :: 0 <= i < |s| && IsSpace(s[i]) ==> s[i] == ' '
  }

  predicate NoDoubleSpace(s: string) {
    forall i :: 0 < i < |s| && s[i] == ' ' ==> s[i - 1] != ' '
  }

  predicate Trimmed(s: string) {
    s == [] || (!IsSpace(s[0]) && !IsSpace(s[|s| - 1]))
  }

  /** The shape of a cleaned text: single plain spaces between words, none at the ends. */
  predicate Tidy(s: string) {
    PlainSpaces(s) && NoDoubleSpace(s) && Trimmed(s)
  }

  /** `r` has the same length as `s`, and both have the same whitespace at the same places. */
  predicate SameLayout(s: string, r: string) {
    |s| == |r| && forall i :: 0 <= i < |s| && (IsSpace(s[i]) || IsSpace(r[i])) ==> r[i] == s[i]
  }

  predicate UpperFixed(s: string) {
    forall i :: 0 <= i < |s| ==> UpperChar(s[i]) == s[i]
  }

  lemma {:induction false} VisibleStripLeft(s: string)
    ensures Visible(StripLeft(s)) == Visible(s)
    decreases |s|
  {
    if s != [] && IsSpace(s[0]) {
      VisibleStripLeft(s[1..]);
    }
  }

  /** Collapsing whitespace removes or adds nothing but whitespace. */
  lemma {:induction false} CollapseKeepsVisible(s: string)
    ensures Visible(Collapse(s)) == Visible(s)
    decreases |s|
  {
    if s != [] {
      var c := Collapse(s);
      if IsSpace(s[0]) {
        var d := StripLeft(s[1..]);
        CollapseKeepsVisible(d);
        VisibleStripLeft(s[1..]);
        assert c[0] == ' ' && c[1..] == Collapse(d);
      } else {
        CollapseKeepsVisible(s[1..]);
        assert c[0] == s[0] && c[1..] == Collapse(s[1..]);
      }
    }
  }

  /**
   * Each maximal whitespace run becomes one space where it stood: the text
   * on either side of the run is collapsed on its own. With `x` or `y` empty
   * this covers a run at either end, and with CollapseTidy (a text without
   * whitespace is unchanged) it fixes `Collapse` on every input.
   */
  lemma {:induction false} CollapseRun(x: string, w: string, y: string)
    requires w != [] && forall i :: 0 <= i < |w| ==> IsSpace(w[i])
    requires x == [] || !IsSpace(x[|x| - 1])
    requires y == [] || !IsSpace(y[0])
    ensures Collapse(x + (w + y)) == Collapse(x) + " " + Collapse(y)
    decreases |x|
  {
    if x == [] {
      CollapseRunAlone(x, w, y);
    } else {
      var u := x[1..];
      FirstAndRest(x, w + y);
      if !IsSpace(x[0]) {
        CollapseRun(u, w, y);
        CollapseKeepJoin(x[0], u, w + y, y);
      } else {
        StripLeftPrefix(u, w + y);
        CollapseRun(StripLeft(u), w, y);
        CollapseSpaceJoin(x[0], u, w + y, y);
      }
    }
  }

  /** CollapseRun with nothing before the run. */
  lemma CollapseRunAlone(x: string, w: string, y: string)
    requires x == [] && w != [] && forall i :: 0 <= i < |w| ==> IsSpace(w[i])
    requires y == [] || !IsSpace(y[0])
    ensures Collapse(x + (w + y)) == Collapse(x) + " " + Collapse(y)
  {
    var t := w[1..] + y;
    StripLeftSpaces(w[1..], y);
    assert x + (w + y) == [w[0]] + t && ([w[0]] + t)[1..] == t;
    JoinAround(x, Collapse(x), Collapse(y));
  }

  /** The inductive step of CollapseRun when the text starts with a visible character `c`. */
  lemma CollapseKeepJoin(c: char, u: string, v: string, y: string)
    requires !IsSpace(c)
    requires Collapse(u + v) == Collapse(u) + " " + Collapse(y)
    ensures Collapse([c] + (u + v)) == Collapse([c] + u) + " " + Collapse(y)
  {
    assert ([c] + (u + v))[1..] == u + v && ([c] + u)[1..] == u;
    assert Collapse([c] + (u + v)) == [c] + Collapse(u + v);
    assert Collapse([c] + u) == [c] + Collapse(u);
    JoinAround([c], Collapse(u), Collapse(y));
  }

  /** The inductive step of CollapseRun when the text starts with the whitespace character `c`. */
  lemma CollapseSpaceJoin(c: char, u: string, v: string, y: string)
    requires IsSpace(c)
    requires StripLeft(u + v) == StripLeft(u) + v
    requires Collapse(StripLeft(u) + v) == Collapse(StripLeft(u)) + " " + Collapse(y)
    ensures Collapse([c] + (u + v)) == Collapse([c] + u) + " " + Collapse(y)
  {
    assert ([c] + (u + v))[1..] == u + v && ([c] + u)[1..] == u;
    assert Collapse([c] + (u + v)) == [' '] + Collapse(StripLeft(u + v));
    assert Collapse([c] + u) == [' '] + Collapse(StripLeft(u));
    JoinAround([' '], Collapse(StripLeft(u)), Collapse(y));
  }

  /** Regrouping around the single space that CollapseRun puts in. */
  lemma JoinAround(a: string, b: string, d: string)
    ensures a + (b + " " + d) == a + b + " " + d
    ensures b == [] ==> b + " " + d == [' '] + d
  {
  }

  /** A non-empty text is its first character followed by the rest. */
  lemma FirstAndRest(x: string, v: string)
    requires x != []
    ensures x == [x[0]] + x[1..] && x + v == [x[0]] + (x[1..] + v)
  {
  }

  /** A whitespace run in front of a text that starts with no whitespace is stripped entirely. */
  lemma {:induction false} StripLeftSpaces(v: string, y: string)
    requires forall i :: 0 <= i < |v| ==> IsSpace(v[i])
    requires y == [] || !IsSpace(y[0])
    ensures StripLeft(v + y) == y
    decreases |v|
  {
    if v == [] {
      assert v + y == y;
    } else {
      assert (v + y)[1..] == v[1..] + y;
      StripLeftSpaces(v[1..], y);
    }
  }

  /** Stripping the front of a text that ends in a non-whitespace character never reaches what follows it. */
  lemma {:induction false} StripLeftPrefix(a: string, b: string)
    requires a != [] && !IsSpace(a[|a| - 1])
    ensures StripLeft(a + b) == StripLeft(a) + b
    ensures StripLeft(a) != [] && StripLeft(a)[|StripLeft(a)| - 1] == a[|a| - 1]
    decreases |a|
  {
    FirstAndRest(a, b);
    StripLeftStep(a[0], a[1..] + b);
    StripLeftStep(a[0], a[1..]);
    if IsSpace(a[0]) {
      StripLeftPrefix(a[1..], b);
    }
  }

  /** One step of `lstrip()`. */
  lemma StripLeftStep(c: char, t: string)
    ensures StripLeft([c] + t) == if IsSpace(c) then StripLeft(t) else [c] + t
  {
    assert ([c] + t)[1..] == t;
  }

  lemma CollapseHead(s: string)
    requires s != []
    ensures Collapse(s) != []
    ensures Collapse(s)[0] == if IsSpace(s[0]) then ' ' else s[0]
  {
  }

  /** After collapsing, whitespace is only single plain spaces. */
  lemma {:induction false} CollapseLayout(s: string)
    ensures PlainSpaces(Collapse(s)) && NoDoubleSpace(Collapse(s))
    decreases |s|
  {
    if s != [] {
      var c := Collapse(s);
      var tail := if IsSpace(s[0]) then StripLeft(s[1..]) else s[1..];
      assert c == [c[0]] + Collapse(tail);
      CollapseLayout(tail);
      if tail != [] {
        CollapseHead(tail);
        assert IsSpace(s[0]) ==> c[1] != ' ';
      }
      ConsLayout(c[0], Collapse(tail));
    }
  }

  /** Putting a character in front keeps the spacing when it does not make a double or non-plain space. */
  lemma ConsLayout(x: char, t: string)
    requires PlainSpaces(t) && NoDoubleSpace(t)
    requires IsSpace(x) ==> x == ' '
    requires x == ' ' && t != [] ==> t[0] != ' '
    ensures PlainSpaces([x] + t) && NoDoubleSpace([x] + t)
  {
    var c := [x] + t;
    forall i | 0 <= i < |c| && IsSpace(c[i]) ensures c[i] == ' ' {
      if i > 0 { assert c[i] == t[i - 1]; }
    }
    forall i | 0 < i < |c| && c[i] == ' ' ensures c[i - 1] != ' ' {
      if i > 1 { assert c[i] == t[i - 1] && c[i - 1] == t[i - 2]; }
    }
  }

  /** A tidy text is left unchanged by collapsing. */
  lemma {:induction false} CollapseTidy(s: string)
    requires PlainSpaces(s) && NoDoubleSpace(s)
    ensures Collapse(s) == s
    decreases |s|
  {
    if s != [] {
      assert PlainSpaces(s[1..]) && NoDoubleSpace(s[1..]) by {
        forall i | 0 < i < |s[1..]| && s[1..][i] == ' ' ensures s[1..][i - 1] != ' ' {
          assert s[1..][i] == s[i + 1];
        }
      }
      if IsSpace(s[0]) {
        assert |s| > 1 ==> s[1] != ' ';
        assert StripLeft(s[1..]) == s[1..];
      }
      CollapseTidy(s[1..]);
      assert [s[0]] + s[1..] == s;
    }
  }

  lemma SliceKeepsSpacing(s: string, a: nat, b: nat)
    requires a <= b <= |s|
    requires PlainSpaces(s) && NoDoubleSpace(s)
    ensures PlainSpaces(s[a..b]) && NoDoubleSpace(s[a..b])
  {
    var t := s[a..b];
    forall i | 0 < i < |t| && t[i] == ' ' ensures t[i - 1] != ' ' {
      assert t[i] == s[a + i] && t[i - 1] == s[a + i - 1];
    }
  }

  lemma {:induction false} StripLeftTrimmed(s: string)
    requires Trimmed(s)
    ensures StripLeft(s) == s && StripRight(s) == s
  {
  }

  lemma SameLayoutTidy(s: string, r: string)
    requires Tidy(s) && SameLayout(s, r)
    ensures Tidy(r)
  {
    SameLayoutSpacing(s, r);
  }

  lemma SameLayoutTrans(s: string, t: string, u: string)
    requires SameLayout(s, t) && SameLayout(t, u)
    ensures SameLayout(s, u)
  {
  }

  lemma UpperAllLayout(s: string)
    ensures SameLayout(s, UpperAll(s)) && UpperFixed(UpperAll(s))
  {
    forall i | 0 <= i < |s| ensures UpperChar(UpperAll(s)[i]) == UpperAll(s)[i] {
      UpperCharIdempotent(s[i]);
    }
  }

  lemma StripLeftKeeps(s: string)
    requires PlainSpaces(s) && NoDoubleSpace(s)
    ensures PlainSpaces(StripLeft(s)) && NoDoubleSpace(StripLeft(s))
    ensures UpperFixed(s) ==> UpperFixed(StripLeft(s))
  {
    var l := StripLeft(s);
    var a := |s| - |l|;
    SliceKeepsSpacing(s, a, |s|);
    if UpperFixed(s) {
      forall i | 0 <= i < |l| ensures UpperChar(l[i]) == l[i] {
        assert l[i] == s[a + i];
      }
    }
  }

  lemma StripRightKeeps(s: string)
    requires PlainSpaces(s) && NoDoubleSpace(s)
    ensures PlainSpaces(StripRight(s)) && NoDoubleSpace(StripRight(s))
    ensures UpperFixed(s) ==> UpperFixed(StripRight(s))
  {
    var n := StripRight(s);
    SliceKeepsSpacing(s, 0, |n|);
    if UpperFixed(s) {
      forall i | 0 <= i < |n| ensures UpperChar(n[i]) == n[i] {
        assert n[i] == s[i];
      }
    }
  }

  lemma StripTidy(s: string)
    requires PlainSpaces(s) && NoDoubleSpace(s)
    ensures Tidy(Strip(s))
    ensures UpperFixed(s) ==> UpperFixed(Strip(s))
  {
    StripLeftKeeps(s);
    StripRightKeeps(StripLeft(s));
    StripTrimmed(s);
  }

  lemma StripTrimmed(s: string)
    ensures Trimmed(Strip(s))
  {
    var l := StripLeft(s);
    var n := StripRight(l);
    if n != [] {
      assert n[0] == l[0];
    }
  }

  /** The first half of `_clean_text` already leaves a tidy, upper-case text. */
  lemma NormalizeTidy(text: string)
    ensures Tidy(Normalize(text)) && UpperFixed(Normalize(text))
  {
    var c := Collapse(text);
    CollapseLayout(text);
    var u := UpperAll(c);
    UpperAllLayout(c);
    SameLayoutSpacing(c, u);
    StripTidy(u);
  }

  lemma SameLayoutSpacing(s: string, r: string)
    requires PlainSpaces(s) && NoDoubleSpace(s) && SameLayout(s, r)
    ensures PlainSpaces(r) && NoDoubleSpace(r)
  {
    forall i | 0 < i < |r| && r[i] == ' ' ensures r[i - 1] != ' ' {
      assert IsSpace(r[i]);
    }
  }

  // ---------------------------------------------------------------------------
  // The OCR-correction table
  // ---------------------------------------------------------------------------

  /** Python's `s.replace(pat, rep)`: non-overlapping occurrences, left to right. */
  function ReplaceAll(s: string, pat: string, rep: string): string
    requires pat != []
    decreases |s|
  {
    if s == [] then []
    else if pat <= s then rep + ReplaceAll(s[|pat|..], pat, rep)
    else [s[0]] + ReplaceAll(s[1..], pat, rep)
  }

  /** `self.ocr_replacements`, in insertion order: digits read in place of letters, then `УФИС`. */
  const Table: seq<(string, string)> :=
    [("0", "О"), ("1", "I"), ("3", "З"), ("4", "Ч"), ("5", "Б"),
     ("6", "Б"), ("8", "В"), ("9", "Д"), ("УФИС", "УФМС")]

  predicate NoSpace(s: string) {
    forall i :: 0 <= i < |s| ==> !IsSpace(s[i])
  }

  predicate KeysNonEmpty(tbl: seq<(string, string)>) {
    forall k :: 0 <= k < |tbl| ==> tbl[k].0 != []
  }

  /** Every key is non-empty and as long as its value, and neither holds whitespace. */
  predicate WellFormedTable(tbl: seq<(string, string)>) {
    forall k :: 0 <= k < |tbl| ==>
      tbl[k].0 != [] && |tbl[k].0| == |tbl[k].1| && NoSpace(tbl[k].0) && NoSpace(tbl[k].1)
  }

  /** The `for` loop of `_clean_text`, one `replace` per entry, in order. */
  function ApplyTable(s: string, tbl: seq<(string, string)>): string
    requires KeysNonEmpty(tbl)
    decreases |tbl|
  {
    if tbl == [] then s
    else
      var last := tbl[|tbl| - 1];
      ReplaceAll(ApplyTable(s, tbl[..|tbl| - 1]), last.0, last.1)
  }

  /** The whole of `_clean_text`. */
  function Cleaned(text: string): string {
    TableKeysNonEmpty();
    ApplyTable(Normalize(text), Table)
  }

  lemma TableKeysNonEmpty()
    ensures KeysNonEmpty(Table)
  {
  }

  lemma TableWellFormed()
    ensures WellFormedTable(Table)
  {
    forall k | 0 <= k < |Table| ensures NoSpace(Table[k].0) && NoSpace(Table[k].1) {
    }
  }

  /** `_clean_text`, step by step as the source runs it. */
  method CleanText(text: string) returns (r: string)
    ensures r == Cleaned(text)
    ensures Tidy(r)
  {
    r := Collapse(text);
    r := Strip(UpperAll(r));
    ghost var n := r;
    TableKeysNonEmpty();
    for i := 0 to |Table|
      invariant r == ApplyTable(n, Table[..i])
    {
      ApplyTableStep(n, i);
      r := ReplaceAll(r, Table[i].0, Table[i].1);
    }
    assert Table[..|Table|] == Table;
    CleanedTidy(text);
  }

  /** A replacement whose pattern and value have the same length keeps the length,
      and every character it changes comes from the pattern and goes to the value. */
  lemma {:induction false} ReplaceSameLength(s: string, pat: string, rep: string)
    requires pat != [] && |pat| == |rep|
    ensures |ReplaceAll(s, pat, rep)| == |s|
    ensures forall i :: 0 <= i < |s| ==>
      ReplaceAll(s, pat, rep)[i] == s[i] || (s[i] in pat && ReplaceAll(s, pat, rep)[i] in rep)
    decreases |s|
  {
    if s != [] {
      var r := ReplaceAll(s, pat, rep);
      if pat <= s {
        var rest := s[|pat|..];
        ReplaceSameLength(rest, pat, rep);
        forall i | 0 <= i < |s|
          ensures r[i] == s[i] || (s[i] in pat && r[i] in rep)
        {
          if i < |pat| {
            assert r[i] == rep[i] && s[i] == pat[i];
          } else {
            assert r[i] == ReplaceAll(rest, pat, rep)[i - |pat|] && s[i] == rest[i - |pat|];
          }
        }
      } else {
        ReplaceSameLength(s[1..], pat, rep);
        forall i | 0 <= i < |s|
          ensures r[i] == s[i] || (s[i] in pat && r[i] in rep)
        {
          if i > 0 {
            assert r[i] == ReplaceAll(s[1..], pat, rep)[i - 1] && s[i] == s[1..][i - 1];
          }
        }
      }
    }
  }

  /** Replacing one character by another is a character map. */
  lemma {:induction false} ReplaceChar(s: string, a: char, b: char)
    ensures |ReplaceAll(s, [a], [b])| == |s|
    ensures forall i :: 0 <= i < |s| ==>
      ReplaceAll(s, [a], [b])[i] == if s[i] == a then b else s[i]
    decreases |s|
  {
    if s != [] {
      var r := ReplaceAll(s, [a], [b]);
      ReplaceChar(s[1..], a, b);
      assert ([a] <= s) == (s[0] == a);
      assert s[1..] == s[|[a]|..];
      forall i | 0 < i < |s|
        ensures r[i] == if s[i] == a then b else s[i]
      {
        assert r[i] == ReplaceAll(s[1..], [a], [b])[i - 1] && s[i] == s[1..][i - 1];
      }
    }
  }

  /** A text that does not contain the pattern is left unchanged. */
  lemma {:induction false} ReplaceAbsent(s: string, pat: string, rep: string)
    requires pat != [] && !Contains(s, pat)
    ensures ReplaceAll(s, pat, rep) == s
    decreases |s|
  {
    if s != [] {
      ReplaceAbsent(s[1..], pat, rep);
      assert [s[0]] + s[1..] == s;
    }
  }

  lemma {:induction false} ApplyTableLayout(s: string, tbl: seq<(string, string)>)
    requires WellFormedTable(tbl)
    ensures SameLayout(s, ApplyTable(s, tbl))
    decreases |tbl|
  {
    if tbl != [] {
      var init := tbl[..|tbl| - 1];
      var last := tbl[|tbl| - 1];
      var x := ApplyTable(s, init);
      ApplyTableLayout(s, init);
      ReplaceSameLength(x, last.0, last.1);
      var r := ReplaceAll(x, last.0, last.1);
      assert NoSpace(last.0) && NoSpace(last.1);
      forall i | 0 <= i < |x| && (IsSpace(x[i]) || IsSpace(r[i])) ensures r[i] == x[i] {
      }
      SameLayoutTrans(s, x, r);
    }
  }

  /** A property of characters that the input and every table value have is kept by the table. */
  lemma {:induction false} ApplyTableKeeps(s: string, tbl: seq<(string, string)>, P: char -> bool)
    requires WellFormedTable(tbl)
    requires forall i :: 0 <= i < |s| ==> P(s[i])
    requires forall k, j :: 0 <= k < |tbl| && 0 <= j < |tbl[k].1| ==> P(tbl[k].1[j])
    ensures forall i :: 0 <= i < |ApplyTable(s, tbl)| ==> P(ApplyTable(s, tbl)[i])
    decreases |tbl|
  {
    if tbl != [] {
      var init := tbl[..|tbl| - 1];
      var last := tbl[|tbl| - 1];
      var x := ApplyTable(s, init);
      ApplyTableKeeps(s, init, P);
      ApplyTableLayout(s, init);
      ReplaceSameLength(x, last.0, last.1);
    }
  }

  /** `УФИС` cannot reappear around an `УФМС` written by its own replacement. */
  lemma {:induction false} UfisHead(x: string)
    requires ReplaceAll(x, "УФИС", "УФМС") != []
    requires ReplaceAll(x, "УФИС", "УФМС")[0] != 'У'
    ensures x != [] && !("УФИС" <= x)
    ensures x[0] == ReplaceAll(x, "УФИС", "УФМС")[0]
    ensures ReplaceAll(x, "УФИС", "УФМС")[1..] == ReplaceAll(x[1..], "УФИС", "УФМС")
  {
  }

  lemma ContainsCons(c: char, rest: string, p: string)
    requires p != [] && c != p[0]
    ensures Contains([c] + rest, p) == Contains(rest, p)
  {
    assert ([c] + rest)[1..] == rest;
  }

  /** No `УФИС` starts inside an `УФМС` that the replacement wrote. */
  lemma NoUfisAcrossValue(rest: string)
    requires !Contains(rest, "УФИС")
    ensures !Contains("УФМС" + rest, "УФИС")
  {
    var p := "УФИС";
    var r := "УФМС" + rest;
    assert p[0] == 'У' && p[2] == 'И';
    ContainsCons('С', rest, p);
    assert r[3..] == ['С'] + rest;
    ContainsCons('М', r[3..], p);
    assert r[2..] == ['М'] + r[3..];
    ContainsCons('Ф', r[2..], p);
    assert r[1..] == ['Ф'] + r[2..];
    assert r[2] != p[2];
  }

  /** A `УФИС` starting at a copied `У` would have been replaced. */
  lemma NoUfisAtCopied(s: string)
    requires s != [] && !("УФИС" <= s)
    ensures !("УФИС" <= ReplaceAll(s, "УФИС", "УФМС"))
  {
    var p := "УФИС";
    var r := ReplaceAll(s, p, "УФМС");
    var rest := ReplaceAll(s[1..], p, "УФМС");
    assert r == [s[0]] + rest;
    if p <= r {
      assert p[0] == 'У' && p[1] == 'Ф' && p[2] == 'И' && p[3] == 'С';
      assert r[0] == p[0] && r[1] == p[1] && r[2] == p[2] && r[3] == p[3];
      assert s[0] == 'У';
      assert rest[0] == 'Ф';
      UfisHead(s[1..]);
      assert s[1] == 'Ф';
      assert rest[1..][0] == 'И';
      UfisHead(s[1..][1..]);
      assert s[2] == 'И';
      assert rest[1..][1..][0] == 'С';
      UfisHead(s[1..][1..][1..]);
      assert false;
    }
  }

  lemma {:induction false} NoUfisAfterReplace(s: string)
    ensures !Contains(ReplaceAll(s, "УФИС", "УФМС"), "УФИС")
    decreases |s|
  {
    var p := "УФИС";
    if s != [] {
      if p <= s {
        NoUfisAfterReplace(s[4..]);
        NoUfisAcrossValue(ReplaceAll(s[4..], p, "УФМС"));
      } else {
        NoUfisAfterReplace(s[1..]);
        NoUfisAtCopied(s);
        assert ReplaceAll(s, p, "УФМС")[1..] == ReplaceAll(s[1..], p, "УФМС");
      }
    }
  }

  // ---------------------------------------------------------------------------
  // What the cleaned text looks like
  // ---------------------------------------------------------------------------

  /** After cleaning, whitespace is only single spaces, with none at either end. */
  lemma CleanedTidy(text: string)
    ensures Tidy(Cleaned(text))
  {
    var n := Normalize(text);
    NormalizeTidy(text);
    TableWellFormed();
    ApplyTableLayout(n, Table);
    assert Cleaned(text) == ApplyTable(n, Table);
    SameLayoutTidy(n, ApplyTable(n, Table));
  }

  /** The table is the eight one-digit entries followed by the `УФИС` entry. */
  lemma ApplyTableLast(s: string)
    ensures ApplyTable(s, Table) == ReplaceAll(ApplyTable(s, Table[..8]), "УФИС", "УФМС")
  {
    assert Table[8] == ("УФИС", "УФМС");
    assert Table[..8] == Table[..|Table| - 1];
  }

  lemma TableDigits(n: string)
    ensures forall i :: 0 <= i < |ApplyTable(n, Table)| && IsDigit(ApplyTable(n, Table)[i]) ==>
      ApplyTable(n, Table)[i] == '2' || ApplyTable(n, Table)[i] == '7'
  {
    DigitEntriesAreOcrDigit(n);
    var m := OcrDigits(n);
    ReplaceSameLength(m, "УФИС", "УФМС");
    var c := ReplaceAll(m, "УФИС", "УФМС");
    forall i | 0 <= i < |c| && IsDigit(c[i]) ensures c[i] == '2' || c[i] == '7' {
      if c[i] != m[i] {
        assert false;
      }
    }
    ApplyTableLast(n);
  }

  /** The table turns the digits 0, 1, 3, 4, 5, 6, 8 and 9 into letters: only 2 and 7 remain. */
  lemma CleanedDigits(text: string)
    ensures forall i :: 0 <= i < |Cleaned(text)| && IsDigit(Cleaned(text)[i]) ==>
      Cleaned(text)[i] == '2' || Cleaned(text)[i] == '7'
  {
    TableDigits(Normalize(text));
  }

  /** `УФИС` is rewritten by the last entry, so the cleaned text never holds it. */
  lemma CleanedHasNoUfis(text: string)
    ensures !Contains(Cleaned(text), "УФИС")
  {
    ApplyTableLast(Normalize(text));
    NoUfisAfterReplace(ApplyTable(Normalize(text), Table[..8]));
  }

  lemma CleanedUpper(text: string)
    ensures UpperFixed(Cleaned(text))
  {
    NormalizeTidy(text);
    TableWellFormed();
    TableValuesUpper();
    ApplyTableKeeps(Normalize(text), Table, c => UpperChar(c) == c);
  }

  /** Every character the table writes is already upper case. */
  lemma TableValuesUpper()
    ensures forall k, j :: 0 <= k < |Table| && 0 <= j < |Table[k].1| ==> UpperChar(Table[k].1[j]) == Table[k].1[j]
  {
    forall k, j | 0 <= k < |Table| && 0 <= j < |Table[k].1|
      ensures UpperChar(Table[k].1[j]) == Table[k].1[j]
    {
      var c := Table[k].1[j];
      assert !('a' <= c <= 'z') && !('\U{430}' <= c <= '\U{45F}');
    }
  }

  lemma {:induction false} ApplyTableAbsent(s: string, tbl: seq<(string, string)>)
    requires WellFormedTable(tbl)
    requires forall k :: 0 <= k < |tbl| ==> !Contains(s, tbl[k].0)
    ensures ApplyTable(s, tbl) == s
    decreases |tbl|
  {
    if tbl != [] {
      ApplyTableAbsent(s, tbl[..|tbl| - 1]);
      ReplaceAbsent(s, tbl[|tbl| - 1].0, tbl[|tbl| - 1].1);
    }
  }

  lemma NormalizeCleaned(text: string)
    ensures Normalize(Cleaned(text)) == Cleaned(text)
  {
    var c := Cleaned(text);
    CleanedTidy(text);
    CleanedUpper(text);
    CollapseTidy(c);
    assert UpperAll(c) == c;
    StripLeftTrimmed(c);
  }

  lemma TableFixes(c: string)
    requires forall i :: 0 <= i < |c| && IsDigit(c[i]) ==> c[i] == '2' || c[i] == '7'
    requires !Contains(c, "УФИС")
    ensures ApplyTable(c, Table) == c
  {
    DigitEntriesAreOcrDigit(c);
    forall i | 0 <= i < |c| ensures OcrDigits(c)[i] == c[i] {
      OcrDigitFixes(c[i]);
    }
    assert OcrDigits(c) == c;
    ApplyTableLast(c);
    ReplaceAbsent(c, "УФИС", "УФМС");
  }

  /** Cleaning a cleaned text changes nothing. */
  lemma CleanedIdempotent(text: string)
    ensures Cleaned(Cleaned(text)) == Cleaned(text)
  {
    NormalizeCleaned(text);
    CleanedDigits(text);
    CleanedHasNoUfis(text);
    TableFixes(Cleaned(text));
  }

  lemma {:induction false} ApplyTableEmpty(tbl: seq<(string, string)>)
    requires KeysNonEmpty(tbl)
    ensures ApplyTable([], tbl) == []
    decreases |tbl|
  {
    if tbl != [] {
      ApplyTableEmpty(tbl[..|tbl| - 1]);
    }
  }

  /** Cleaning an empty text gives an empty text. */
  lemma CleanedEmpty()
    ensures Cleaned("") == ""
  {
    assert Normalize("") == "";
    TableKeysNonEmpty();
    ApplyTableEmpty(Table);
  }

  lemma ApplyTableStep(s: string, k: nat)
    requires k < |Table|
    ensures ApplyTable(s, Table[..k + 1]) ==
      ReplaceAll(ApplyTable(s, Table[..k]), Table[k].0, Table[k].1)
  {
    assert Table[..k + 1][..k] == Table[..k];
  }

  /** The eight one-digit entries, taken together, as a character map. */
  function OcrDigit(c: char): char {
    match c
    case '0' => 'О'
    case '1' => 'I'
    case '3' => 'З'
    case '4' => 'Ч'
    case '5' => 'Б'
    case '6' => 'Б'
    case '8' => 'В'
    case '9' => 'Д'
    case _ => c
  }

  /** Position of the one-digit entry whose key is `c`, or 8 when there is none. */
  function KeyIndex(c: char): nat {
    match c
    case '0' => 0
    case '1' => 1
    case '3' => 2
    case '4' => 3
    case '5' => 4
    case '6' => 5
    case '8' => 6
    case '9' => 7
    case _ => 8
  }

  lemma DigitEntry(k: nat)
    requires k < 8
    ensures |Table[k].0| == 1 && |Table[k].1| == 1
    ensures KeyIndex(Table[k].0[0]) == k && Table[k].1[0] == OcrDigit(Table[k].0[0])
  {
  }

  lemma KeyIndexFacts(a: char, b: char)
    ensures KeyIndex(a) < 8 ==> IsDigit(a) && !IsDigit(OcrDigit(a))
    ensures KeyIndex(a) >= 8 ==> OcrDigit(a) == a
    ensures KeyIndex(a) == KeyIndex(b) < 8 ==> a == b
  {
  }

  lemma {:induction false} TablePrefixIsCharMap(s: string, k: nat)
    requires k <= 8
    ensures |ApplyTable(s, Table[..k])| == |s|
    ensures forall i :: 0 <= i < |s| ==>
      ApplyTable(s, Table[..k])[i] == if KeyIndex(s[i]) < k then OcrDigit(s[i]) else s[i]
  {
    if k > 0 {
      TablePrefixIsCharMap(s, k - 1);
      ApplyTableStep(s, k - 1);
      DigitEntry(k - 1);
      var e := Table[k - 1];
      assert e.0 == [e.0[0]] && e.1 == [e.1[0]];
      CharMapStep(s, ApplyTable(s, Table[..k - 1]), e.0[0], e.1[0], k);
    }
  }

  /** One more one-digit entry extends the character map to one more key. */
  lemma CharMapStep(s: string, x: string, key: char, v: char, k: nat)
    requires 0 < k && KeyIndex(key) == k - 1 && v == OcrDigit(key)
    requires |x| == |s| && forall i :: 0 <= i < |s| ==>
      x[i] == if KeyIndex(s[i]) < k - 1 then OcrDigit(s[i]) else s[i]
    ensures |ReplaceAll(x, [key], [v])| == |s|
    ensures forall i :: 0 <= i < |s| ==>
      ReplaceAll(x, [key], [v])[i] == if KeyIndex(s[i]) < k then OcrDigit(s[i]) else s[i]
  {
    ReplaceChar(x, key, v);
    forall i | 0 <= i < |s|
      ensures ReplaceAll(x, [key], [v])[i] == if KeyIndex(s[i]) < k then OcrDigit(s[i]) else s[i]
    {
      KeyIndexFacts(s[i], key);
    }
  }

  function OcrDigits(s: string): (r: string)
    ensures |r| == |s| && forall i :: 0 <= i < |s| ==> r[i] == OcrDigit(s[i])
  {
    seq(|s|, i requires 0 <= i < |s| => OcrDigit(s[i]))
  }

  /** The first eight entries of the table act as the character map OcrDigit. */
  lemma DigitEntriesAreOcrDigit(s: string)
    ensures ApplyTable(s, Table[..8]) == OcrDigits(s)
  {
    TablePrefixIsCharMap(s, 8);
    forall i | 0 <= i < |s| ensures ApplyTable(s, Table[..8])[i] == OcrDigit(s[i]) {
      KeyIndexFacts(s[i], s[i]);
    }
  }

  lemma OcrDigitFixes(ch: char)
    requires IsDigit(ch) ==> ch == '2' || ch == '7'
    ensures OcrDigit(ch) == ch
  {
  }

  lemma {:induction false} NoUfisWithoutU(s: string)
    requires forall i :: 0 <= i < |s| ==> s[i] != 'У'
    ensures !Contains(s, "УФИС")
    decreases |s|
  {
    var p := "УФИС";
    assert p[0] == 'У';
    if s != [] {
      assert s[0] != p[0];
      NoUfisWithoutU(s[1..]);
    }
  }

  /** A text without whitespace and already upper case is left unchanged by the first half. */
  lemma NoSpaceNormalize(s: string)
    requires forall i :: 0 <= i < |s| ==> IsDigit(s[i]) || s[i] == '.'
    ensures Normalize(s) == s
  {
    assert NoSpace(s);
    CollapseTidy(s);
    assert UpperAll(s) == s;
    StripLeftTrimmed(s);
  }

  lemma NormalizeExample()
    ensures Normalize("18.11.2009") == "18.11.2009"
  {
    var n := "18.11.2009";
    assert forall i :: 0 <= i < |n| ==> IsDigit(n[i]) || n[i] == '.';
    NoSpaceNormalize(n);
  }

  lemma TableExample()
    ensures ApplyTable("18.11.2009", Table) == "IВ.II.2ООД"
  {
    var n := "18.11.2009";
    DigitEntriesAreOcrDigit(n);
    var m := OcrDigits(n);
    assert m == "IВ.II.2ООД";
    ApplyTableLast(n);
    NoUfisWithoutU(m);
    ReplaceAbsent(m, "УФИС", "УФМС");
  }

  /** A worked example: a date keeps only its 2. */
  lemma CleanedDateExample()
    ensures Cleaned("18.11.2009") == "IВ.II.2ООД"
  {
    NormalizeExample();
    TableExample();
  }
}
