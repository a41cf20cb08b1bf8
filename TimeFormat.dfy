/**
 * The clock shown in the header: a count of seconds printed as minutes and
 * seconds, each at least two digits wide, `mm:ss`.
 */
module TimeFormat {
  import opened JsMath

  predicate IsDigit(c: char)
  {
    '0' <= c <= '9'
  }

  predicate AllDigits(s: string)
  {
    forall k :: 0 <= k < |s| ==> IsDigit(s[k])
  }

  function DigitChar(d: nat): (c: char)
    requires d < 10
    ensures IsDigit(c) && c as int - '0' as int == d
  {
    (d + '0' as int) as char
  }

  function DigitValue(c: char): (d: nat)
    requires IsDigit(c)
    ensures d < 10 && DigitChar(d) == c
  {
    c as int - '0' as int
  }

  /** Decimal digits of `n`, most significant first, no leading zero. */
  function Digits(n: nat): (s: string)
    ensures |s| >= 1 && AllDigits(s)
    ensures n < 10 <==> |s| == 1
    ensures |s| == 1 || s[0] != '0'
  {
    if n < 10 then [DigitChar(n)] else Digits(n / 10) + [DigitChar(n % 10)]
  }

  /** The number a string of decimal digits denotes. */
  function ParseDigits(s: string): nat
    requires AllDigits(s)
  {
    if s == [] then 0 else ParseDigits(s[..|s| - 1]) * 10 + DigitValue(s[|s| - 1])
  }

  /** JavaScript's `String(n)` on an integer. */
  function ToString(n: int): (s: string)
    ensures n >= 0 ==> |s| >= 1 && AllDigits(s) && ParseDigits(s) == n && (|s| == 1 || s[0] != '0')
    ensures n < 0 ==> |s| >= 2 && s[0] == '-' && AllDigits(s[1..]) && ParseDigits(s[1..]) == -n
    ensures n < 0 ==> |s| == 2 || s[1] != '0'
  {
    if n < 0 then
      DigitsRoundTrip(-n);
      assert ("-" + Digits(-n))[1..] == Digits(-n);
      "-" + Digits(-n)
    else
      DigitsRoundTrip(n);
      Digits(n)
  }

  /** `padStart(2, '0')`: zeros in front up to two characters; a longer string is left alone. */
  function Pad2(s: string): (r: string)
    ensures |s| >= 2 ==> r == s
    ensures |s| < 2 ==> |r| == 2 && r[2 - |s|..] == s
    ensures forall k :: 0 <= k < |r| - |s| ==> r[k] == '0'
  {
    if |s| >= 2 then s else seq(2 - |s|, _ => '0') + s
  }

  /**
   * `formatTime`: `Math.floor(seconds / 60)` minutes and JavaScript's
   * `seconds % 60` seconds, each through `String` and `padStart(2, '0')`.
   */
  function FormatTime(seconds: int): (t: string)
    ensures seconds >= 0 ==> |t| >= 5 && t[|t| - 3] == ':'
  {
    Pad2(ToString(seconds / 60)) + ":" + Pad2(ToString(TruncRem(seconds, 60)))
  }

  /** Reading the digits back gives the number. */
  lemma {:induction false} DigitsRoundTrip(n: nat)
    ensures ParseDigits(Digits(n)) == n
  {
    var s := Digits(n);
    if n >= 10 {
      DigitsRoundTrip(n / 10);
      assert s[..|s| - 1] == Digits(n / 10);
    }
  }

  /** Leading zeros do not change the number a digit string denotes. */
  lemma {:induction false} LeadingZero(s: string)
    requires AllDigits(s)
    ensures ParseDigits("0" + s) == ParseDigits(s)
    decreases |s|
  {
    if s != [] {
      var z := "0" + s;
      assert z[..|z| - 1] == "0" + s[..|s| - 1];
      LeadingZero(s[..|s| - 1]);
    }
  }

  /** Padding a digit string keeps it a digit string of the same value. */
  lemma Pad2Digits(s: string)
    requires AllDigits(s)
    ensures AllDigits(Pad2(s)) && ParseDigits(Pad2(s)) == ParseDigits(s)
  {
    if |s| == 1 {
      assert Pad2(s) == "0" + s;
      LeadingZero(s);
    } else if |s| == 0 {
      assert Pad2(s) == "0" + "0";
      LeadingZero("0");
      LeadingZero("");
    }
  }

  /** The part of a clock reading before the colon. */
  function MinutesPart(t: string): string
    requires |t| >= 3
  {
    t[..|t| - 3]
  }

  /** The part of a clock reading after the colon. */
  function SecondsPart(t: string): string
    requires |t| >= 3
  {
    t[|t| - 2..]
  }

  /** A reading put together from two-character seconds splits back into its parts. */
  lemma SplitClock(mm: string, ss: string)
    requires |ss| == 2
    ensures var t := mm + ":" + ss;
      MinutesPart(t) == mm && t[|t| - 3] == ':' && SecondsPart(t) == ss
  {
    var t := mm + ":" + ss;
    assert t[..|t| - 3] == mm;
    assert t[|t| - 2..] == ss;
  }

  /**
   * For a non-negative count the clock reads `mm:ss`: the part after the
   * colon is two digits below 60, the part before it at least two digits,
   * and minutes times 60 plus seconds is the count again.
   */
  lemma FormatTimeReadsBack(n: nat)
    ensures |FormatTime(n)| >= 5
    ensures FormatTime(n) == MinutesPart(FormatTime(n)) + ":" + SecondsPart(FormatTime(n))
    ensures |MinutesPart(FormatTime(n))| >= 2 && |SecondsPart(FormatTime(n))| == 2
    ensures AllDigits(MinutesPart(FormatTime(n))) && AllDigits(SecondsPart(FormatTime(n)))
    ensures ParseDigits(SecondsPart(FormatTime(n))) < 60
    ensures ParseDigits(MinutesPart(FormatTime(n))) * 60 + ParseDigits(SecondsPart(FormatTime(n))) == n
  {
    var mins, secs := n / 60, n % 60;
    assert TruncRem(n, 60) == secs;
    DigitsRoundTrip(mins);
    DigitsRoundTrip(secs);
    Pad2Digits(Digits(mins));
    Pad2Digits(Digits(secs));
    var mm, ss := Pad2(Digits(mins)), Pad2(Digits(secs));
    assert FormatTime(n) == mm + ":" + ss;
    SplitClock(mm, ss);
  }

  /** Different non-negative counts never show the same clock. */
  lemma FormatTimeInjective(a: nat, b: nat)
    requires FormatTime(a) == FormatTime(b)
    ensures a == b
  {
    FormatTimeReadsBack(a);
    FormatTimeReadsBack(b);
  }

  /** Below 100 minutes the clock is exactly five characters. */
  lemma FormatTimeWidth(n: nat)
    requires n < 6000
    ensures |FormatTime(n)| == 5
  {
    assert n / 60 < 100;
    assert |Digits(n / 60)| <= 2 by {
      if n / 60 >= 10 {
        assert (n / 60) / 10 < 10;
      }
    }
  }

  /** The clock at start reads "00:00", and after 75 seconds "01:15". */
  lemma FormatTimeExamples()
    ensures FormatTime(0) == "00:00"
    ensures FormatTime(75) == "01:15"
  {
    assert Digits(1) == "1";
    assert Digits(15) == "15";
  }

  /** The minutes are never cut to two digits: 6000 seconds read "100:00". */
  lemma FormatTimeHundredMinutes()
    ensures FormatTime(6000) == "100:00"
  {
    assert TruncRem(6000, 60) == 0;
    assert Digits(10) == "10";
    assert Digits(100) == "100";
    assert ToString(6000 / 60) == "100";
    assert ToString(0) == "0";
  }

  /** JavaScript's reading of a negative count: both parts carry the sign. */
  lemma FormatTimeNegative()
    ensures FormatTime(-1) == "-1:-1"
  {
    assert Digits(1) == "1";
    assert -1 / 60 == -1;
    assert TruncRem(-1, 60) == -1;
    assert ToString(-1) == "-1";
  }
}
