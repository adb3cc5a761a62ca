/** The formatting helpers of the renderer: `duration_to_human`,
    `bytes_to_human` and `string_width` (src/lib.rs). */
module Format {
  import opened Strings

  /** `{:02}`: a number below 100 as exactly two digits, zero-padded. */
  function Pad2(n: nat): (r: string)
    requires n < 100
    ensures |r| == 2 && AllDigits(r)
    ensures DecimalValue(r) == n
  {
    if n < 10 then
      var r := "0" + NatToString(n);
      assert r[..1] == "0";
      r
    else
      var r := NatToString(n);
      assert NatToString(n / 10) == [Digit(n / 10)];
      r
  }

  /** `duration_to_human`: whole seconds as `H:MM:SS`, hours unpadded. */
  function DurationToHuman(secs: nat): string
  {
    NatToString(secs / 3600) + ":" + Pad2((secs % 3600) / 60) + ":" + Pad2(secs % 60)
  }

  /** Reads `H:MM:SS` back: hours any non-empty digit string, minutes and
      seconds two digits below 60. */
  function ParseClock(s: string): (r: Option<nat>)
  {
    var p := Split(s, ':');
    if |p| != 3 || |p[0]| == 0 || |p[1]| != 2 || |p[2]| != 2 then None
    else if !AllDigits(p[0]) || !AllDigits(p[1]) || !AllDigits(p[2]) then None
    else if DecimalValue(p[1]) >= 60 || DecimalValue(p[2]) >= 60 then None
    else Some(3600 * DecimalValue(p[0]) + 60 * DecimalValue(p[1]) + DecimalValue(p[2]))
  }

  lemma DigitsHaveNo(s: string, c: char)
    requires AllDigits(s)
    requires !IsDigit(c)
    ensures c !in s
  {
  }

  lemma DivMod60(secs: nat)
    ensures 3600 * (secs / 3600) + 60 * ((secs % 3600) / 60) + secs % 60 == secs
  {
    var q, r := secs / 3600, secs % 3600;
    assert secs == 3600 * q + r;
    var a, b := r / 60, r % 60;
    assert r == 60 * a + b;
    assert secs == 60 * (60 * q + a) + b;
    ModSixty(60 * q + a, b);
  }

  lemma ModSixty(k: int, b: int)
    requires 0 <= b < 60
    ensures (60 * k + b) % 60 == b
  {
  }

  /** The fields of `duration_to_human(s)`: three `:`-separated pieces,
      minutes and seconds zero-padded to two digits and below 60, and
      3600·H + 60·MM + SS = s. */
  lemma DurationFields(secs: nat)
    ensures var p := Split(DurationToHuman(secs), ':');
      |p| == 3 && AllDigits(p[0]) && AllDigits(p[1]) && AllDigits(p[2])
      && |p[1]| == 2 && |p[2]| == 2
      && DecimalValue(p[0]) == secs / 3600
      && DecimalValue(p[1]) < 60 && DecimalValue(p[2]) < 60
      && 3600 * DecimalValue(p[0]) + 60 * DecimalValue(p[1]) + DecimalValue(p[2]) == secs
  {
    var h, m, s := NatToString(secs / 3600), Pad2((secs % 3600) / 60), Pad2(secs % 60);
    assert DurationToHuman(secs) == Join([h, m, s], ':') by {
      assert Join([s], ':') == s;
      assert [h, m, s][1..] == [m, s];
      assert [m, s][1..] == [s];
    }
    DigitsHaveNo(h, ':');
    DigitsHaveNo(m, ':');
    DigitsHaveNo(s, ':');
    SplitJoin([h, m, s], ':');
    DivMod60(secs);
  }

  /** Reading the clock text back gives the number of seconds. */
  lemma ParseDuration(secs: nat)
    ensures ParseClock(DurationToHuman(secs)) == Some(secs)
  {
    DurationFields(secs);
  }

  datatype ByteUnit = B | KiB | MiB | GiB | TiB

  const KB: nat := 1024

  function Scale(u: ByteUnit): nat
  {
    match u
    case B => 1
    case KiB => KB
    case MiB => KB * KB
    case GiB => KB * KB * KB
    case TiB => KB * KB * KB * KB
  }

  function UnitName(u: ByteUnit): string
  {
    match u
    case B => "B"
    case KiB => "KiB"
    case MiB => "MiB"
    case GiB => "GiB"
    case TiB => "TiB"
  }

  /** The unit `bytes_to_human` picks: the largest power of 1024 not above
      the count, capped at TiB; plain bytes below 1024. */
  function UnitOf(n: nat): (u: ByteUnit)
    ensures u == B <==> n < KB
    ensures u != B ==> Scale(u) <= n
    ensures u != TiB ==> n < Scale(u) * KB
  {
    if n < KB then B
    else if n < KB * KB then KiB
    else if n < KB * KB * KB then MiB
    else if n < KB * KB * KB * KB then GiB
    else TiB
  }

  /** The unit is determined by the bracket it falls in: any unit whose
      range holds `n` is the one chosen. */
  lemma UnitUnique(n: nat, u: ByteUnit)
    requires u == B || Scale(u) <= n
    requires u == TiB || n < Scale(u) * KB
    ensures u == UnitOf(n)
  {
  }

  /** `{:.2}` of q/100: integer part, a dot, two digits. */
  function Decimal2(q: nat): string
  {
    NatToString(q / 100) + "." + Pad2(q % 100)
  }

  /** q/100 rounded from n/scale: ⌊100·n/scale + 1/2⌋. */
  function Hundredths(n: nat, scale: nat): (q: nat)
    requires scale > 0
    ensures 2 * q * scale <= 200 * n + scale < 2 * (q + 1) * scale
  {
    (200 * n + scale) / (2 * scale)
  }

  /** `bytes_to_human`: `"<n> B"` below 1024, otherwise the count in the
      chosen unit with two decimals, a space and the unit name. */
  function BytesToHuman(n: nat): string
  {
    var u := UnitOf(n);
    if u == B then NatToString(n) + " B"
    else Decimal2(Hundredths(n, Scale(u))) + " " + UnitName(u)
  }

  lemma NumberThenWord(num: string, word: string)
    requires ' ' !in num && ' ' !in word
    ensures Split(num + " " + word, ' ') == [num, word]
  {
    SplitPrefix(num, word, ' ');
    SplitNoSep(word, ' ');
  }

  /** The shape of `bytes_to_human(n)`: a number, one space, the unit
      chosen by `UnitOf`. Below 1024 the number is exactly n; above, its
      hundredths are n in that unit, rounded. */
  lemma BytesShape(n: nat)
    ensures var p := Split(BytesToHuman(n), ' ');
      |p| == 2 && p[1] == UnitName(UnitOf(n))
      && (n < KB ==> AllDigits(p[0]) && DecimalValue(p[0]) == n)
      && (n >= KB ==> p[0] == Decimal2(Hundredths(n, Scale(UnitOf(n)))))
  {
    var u := UnitOf(n);
    if u == B {
      DigitsHaveNo(NatToString(n), ' ');
      assert BytesToHuman(n) == NatToString(n) + " " + "B";
      NumberThenWord(NatToString(n), "B");
    } else {
      var q := Hundredths(n, Scale(u));
      DigitsHaveNo(NatToString(q / 100), ' ');
      DigitsHaveNo(Pad2(q % 100), ' ');
      assert ' ' !in Decimal2(q);
      NumberThenWord(Decimal2(q), UnitName(u));
    }
  }

  /** `string_width` without the `unicode` feature: the number of chars. */
  function StringWidth(s: string): nat
  {
    |s|
  }

  lemma BytesSmallExamples()
    ensures BytesToHuman(0) == "0 B"
    ensures BytesToHuman(10) == "10 B"
  {
    assert NatToString(10) == "10" by {
      assert NatToString(1) == "1";
      assert NatToString(0) == "0";
    }
  }

  lemma BytesKiBExample()
    ensures BytesToHuman(1536) == "1.50 KiB"
  {
    assert UnitOf(1536) == KiB;
    assert Hundredths(1536, KB) == 150;
    assert Pad2(50) == "50" by { assert NatToString(5) == "5"; }
    assert Decimal2(150) == "1.50";
  }

  lemma BytesGiBExample()
    ensures BytesToHuman(KB * KB * KB) == "1.00 GiB"
  {
    var n := KB * KB * KB;
    assert UnitOf(n) == GiB;
    assert Hundredths(n, n) == 100;
    assert Pad2(0) == "00";
    assert Decimal2(100) == "1.00";
  }
}
