/**
 * The two `strftime` formats the output files use: `%Y-%m-%d %H:%M:%S` for
 * the processing date and `%Y%m%d_%H%M%S` inside file names. The clock
 * reading itself (`datetime.now()`) is a parameter of type `Stamp`.
 */
module Timestamps {
  import opened TextUtil

  /** A local date and time as `datetime` holds it. */
  datatype Stamp = Stamp(year: nat, month: nat, day: nat, hour: nat, minute: nat, second: nat)

  predicate ValidStamp(s: Stamp) {
    1 <= s.year <= 9999 && 1 <= s.month <= 12 && 1 <= s.day <= 31 &&
    s.hour < 24 && s.minute < 60 && s.second < 60
  }

  /** `%m`, `%d`, `%H`, `%M`, `%S`: two digits, zero-padded. */
  function TwoDigits(n: nat): string {
    PadNat(n, 2)
  }

  /** `%Y`: the year in decimal, without padding. */
  function Year(n: nat): string {
    NatToString(n)
  }

  /** `strftime('%Y-%m-%d %H:%M:%S')`. */
  function LongStamp(s: Stamp): string {
    Year(s.year) + "-" + TwoDigits(s.month) + "-" + TwoDigits(s.day) + " " +
    TwoDigits(s.hour) + ":" + TwoDigits(s.minute) + ":" + TwoDigits(s.second)
  }

  /** `strftime('%Y%m%d_%H%M%S')`. */
  function CompactStamp(s: Stamp): string {
    Year(s.year) + TwoDigits(s.month) + TwoDigits(s.day) + "_" +
    TwoDigits(s.hour) + TwoDigits(s.minute) + TwoDigits(s.second)
  }

  /** The number a string of decimal digits spells. */
  function DigitsValue(s: string): nat
    requires AllDigits(s)
    decreases |s|
  {
    if s == [] then 0
    else DigitsValue(s[..|s| - 1]) * 10 + (s[|s| - 1] as int - '0' as int)
  }

  lemma {:induction false} NatToStringValue(n: nat)
    ensures DigitsValue(NatToString(n)) == n
    decreases n
  {
    var s := NatToString(n);
    if n >= 10 {
      NatToStringValue(n / 10);
      assert s[..|s| - 1] == NatToString(n / 10);
    } else {
      assert s[..|s| - 1] == [];
    }
  }

  lemma {:induction false} LeadingZeros(k: nat, d: string)
    requires AllDigits(d)
    ensures AllDigits(Repeat('0', k) + d) && DigitsValue(Repeat('0', k) + d) == DigitsValue(d)
    decreases |d|
  {
    var z := Repeat('0', k);
    if d == [] {
      assert z + d == z;
      ZerosValue(k);
    } else {
      var d' := d[..|d| - 1];
      assert (z + d)[..|z + d| - 1] == z + d';
      LeadingZeros(k, d');
    }
  }

  lemma {:induction false} ZerosValue(k: nat)
    ensures AllDigits(Repeat('0', k)) && DigitsValue(Repeat('0', k)) == 0
    decreases k
  {
    if k > 0 {
      var z := Repeat('0', k);
      assert z[..k - 1] == Repeat('0', k - 1);
      ZerosValue(k - 1);
    }
  }

  /** Zero padding keeps the value: what `%m` and its siblings print reads back as the number. */
  lemma PadNatValue(n: nat, width: nat)
    ensures DigitsValue(PadNat(n, width)) == n
  {
    var digits := NatToString(n);
    NatToStringValue(n);
    if |digits| < width {
      var z := Repeat('0', width - |digits|);
      assert PadNat(n, width) == z + digits;
      LeadingZeros(width - |digits|, digits);
    } else {
      assert PadNat(n, width) == digits;
    }
  }

  lemma TwoDigitsFacts(n: nat)
    requires n < 100
    ensures |TwoDigits(n)| == 2 && DigitsValue(TwoDigits(n)) == n
  {
    NatToStringLength(n);
    PadNatValue(n, 2);
  }

  /** Reads a compact stamp back: fixed positions, since the year has four digits. */
  function ReadCompact(c: string): Option<Stamp> {
    if |c| == 15 && c[8] == '_' && AllDigits(c[..8]) && AllDigits(c[9..]) then
      Some(Stamp(DigitsValue(c[..4]), DigitsValue(c[4..6]), DigitsValue(c[6..8]),
                 DigitsValue(c[9..11]), DigitsValue(c[11..13]), DigitsValue(c[13..])))
    else None
  }

  /** The compact form loses nothing: a stamp with a four-digit year is read back from it. */
  lemma CompactRoundTrip(s: Stamp)
    requires ValidStamp(s) && s.year >= 1000
    ensures |CompactStamp(s)| == 15
    ensures ReadCompact(CompactStamp(s)) == Some(s)
  {
    NatToStringValue(s.year);
    TwoDigitsFacts(s.month);
    TwoDigitsFacts(s.day);
    TwoDigitsFacts(s.hour);
    TwoDigitsFacts(s.minute);
    TwoDigitsFacts(s.second);
    CompactPieces(s);
  }

  /** Where each field sits in a compact stamp with a four-digit year. */
  lemma CompactPieces(s: Stamp)
    requires ValidStamp(s) && s.year >= 1000
    ensures var c := CompactStamp(s);
      |c| == 15 && c[8] == '_' &&
      c[..4] == Year(s.year) && c[4..6] == TwoDigits(s.month) && c[6..8] == TwoDigits(s.day) &&
      c[9..11] == TwoDigits(s.hour) && c[11..13] == TwoDigits(s.minute) && c[13..] == TwoDigits(s.second) &&
      AllDigits(c[..8]) && AllDigits(c[9..])
  {
    NatToStringLength(s.year);
    NatToStringLength(s.month);
    NatToStringLength(s.day);
    NatToStringLength(s.hour);
    NatToStringLength(s.minute);
    NatToStringLength(s.second);
    SevenPieces(Year(s.year), TwoDigits(s.month), TwoDigits(s.day), TwoDigits(s.hour), TwoDigits(s.minute), TwoDigits(s.second));
  }

  lemma SevenPieces(y: string, mo: string, d: string, h: string, mi: string, se: string)
    requires |y| == 4 && |mo| == 2 && |d| == 2 && |h| == 2 && |mi| == 2 && |se| == 2
    requires AllDigits(y) && AllDigits(mo) && AllDigits(d) && AllDigits(h) && AllDigits(mi) && AllDigits(se)
    ensures var c := y + mo + d + "_" + h + mi + se;
      |c| == 15 && c[8] == '_' &&
      c[..4] == y && c[4..6] == mo && c[6..8] == d && c[9..11] == h && c[11..13] == mi && c[13..] == se &&
      AllDigits(c[..8]) && AllDigits(c[9..])
  {
    var c := y + mo + d + "_" + h + mi + se;
    assert c[..8] == y + mo + d;
    assert c[9..] == h + mi + se;
  }

  /** Different clock readings (with four-digit years) give different compact stamps. */
  lemma CompactInjective(s1: Stamp, s2: Stamp)
    requires ValidStamp(s1) && s1.year >= 1000 && ValidStamp(s2) && s2.year >= 1000
    requires CompactStamp(s1) == CompactStamp(s2)
    ensures s1 == s2
  {
    CompactRoundTrip(s1);
    CompactRoundTrip(s2);
  }

  /** The long form is 19 characters for a four-digit year and never spans two lines. */
  lemma LongStampShape(s: Stamp)
    requires ValidStamp(s)
    ensures NoNewline(LongStamp(s))
    ensures s.year >= 1000 ==> |LongStamp(s)| == 19
  {
    NatToStringLength(s.year);
    NatToStringLength(s.month);
    NatToStringLength(s.day);
    NatToStringLength(s.hour);
    NatToStringLength(s.minute);
    NatToStringLength(s.second);
    var l := LongStamp(s);
    assert forall i :: 0 <= i < |l| ==> IsDigit(l[i]) || l[i] in "-: ";
  }
}
