/**
 The "Time Left" read-out of the timer panel: minutes, a colon, and the seconds
 padded to two digits. The minutes are `Math.floor(timeLeft / 60)` and the
 seconds are JavaScript's `timeLeft % 60`, which truncates toward zero. A
 whole number of minutes `m`, negative ones included, shows as "m:00"; only a
 negative time that is not a whole number of minutes would show a minus sign
 in both parts. `ParseTime` is the inverse of the display on non-negative
 times.
 */
module TimeDisplay {

  import opened Wrappers

  predicate IsDigit(c: char) { '0' <= c <= '9' }

  predicate AllDigits(s: string) { forall i {:trigger IsDigit(s[i])} :: 0 <= i < |s| ==> IsDigit(s[i]) }

  /** A decimal numeral as JavaScript's `String` writes a non-negative integer: no leading zero. */
  predicate Canonical(s: string) { |s| >= 1 && AllDigits(s) && (s[0] == '0' ==> |s| == 1) }

  function DigitChar(d: nat): (c: char)
    requires d < 10
    ensures IsDigit(c)
  {
    ('0' as int + d) as char
  }

  function DigitValue(c: char): (d: nat)
    requires IsDigit(c)
    ensures d < 10 && DigitChar(d) == c
  {
    c as int - '0' as int
  }

  /** `String(n)` for a non-negative integer `n`. */
  function NatToString(n: nat): (s: string)
    ensures Canonical(s)
    ensures |s| == 1 <==> n < 10
    decreases n
  {
    if n < 10 then [DigitChar(n)] else NatToString(n / 10) + [DigitChar(n % 10)]
  }

  /** The value of a string of decimal digits (0 for the empty string). */
  function ParseNat(s: string): nat
    requires AllDigits(s)
    decreases |s|
  {
    if s == [] then 0 else ParseNat(s[..|s| - 1]) * 10 + DigitValue(s[|s| - 1])
  }

  /** `String(n)` for any integer `n`. */
  function IntToString(n: int): string
  {
    if n < 0 then "-" + NatToString(-n) else NatToString(n)
  }

  /** JavaScript's `a % 60`: the remainder takes the sign of `a`. */
  function JsRemainder60(a: int): (r: int)
    ensures a >= 0 ==> 0 <= r < 60
    ensures a < 0 ==> -60 < r <= 0
    ensures (a - r) % 60 == 0
  {
    if a >= 0 then a % 60 else -((-a) % 60)
  }

  /** `s.padStart(width, fill)` for a one-character fill. */
  function PadStart(s: string, width: nat, fill: char): (r: string)
    ensures |r| == if |s| >= width then |s| else width
  {
    if |s| >= width then s else seq(width - |s|, _ => fill) + s
  }

  /** Padding only prepends fill characters: the original string is the suffix. */
  lemma PadStartPrepends(s: string, width: nat, fill: char)
    ensures var r := PadStart(s, width, fill);
      r[|r| - |s|..] == s && forall i :: 0 <= i < |r| - |s| ==> r[i] == fill
  {
  }

  /** The `m:ss` read-out of `timeLeft` seconds. */
  function Display(timeLeft: int): string
  {
    IntToString(timeLeft / 60) + ":" + PadStart(IntToString(JsRemainder60(timeLeft)), 2, '0')
  }

  /** Reads back a read-out of the form `m:ss` with canonical minutes and seconds below 60. */
  function ParseTime(s: string): Option<int>
  {
    if |s| < 4 || s[|s| - 3] != ':' then None
    else
      var minutes, seconds := s[..|s| - 3], s[|s| - 2..];
      if Canonical(minutes) && AllDigits(seconds) && ParseNat(seconds) < 60
      then Some(ParseNat(minutes) * 60 + ParseNat(seconds))
      else None
  }

  /** `s` is canonical minutes, a colon and two seconds digits, with these values. */
  predicate ReadOut(s: string, minutes: nat, seconds: nat)
  {
    |s| >= 4 && s[|s| - 3] == ':'
    && Canonical(s[..|s| - 3]) && ParseNat(s[..|s| - 3]) == minutes
    && AllDigits(s[|s| - 2..]) && ParseNat(s[|s| - 2..]) == seconds
  }

  /** `ParseTime` accepts every read-out with seconds below 60, giving minutes * 60 + seconds. */
  lemma ParseTimeAccepts(s: string, m: nat, sec: nat)
    requires ReadOut(s, m, sec) && sec < 60
    ensures ParseTime(s) == Some(m * 60 + sec)
  {
  }

  /** `ParseTime` accepts nothing but read-outs with seconds below 60. */
  lemma ParseTimeOnlyReadOuts(s: string)
    requires ParseTime(s).Some?
    ensures |s| >= 4 && AllDigits(s[..|s| - 3]) && AllDigits(s[|s| - 2..])
    ensures ReadOut(s, ParseNat(s[..|s| - 3]), ParseNat(s[|s| - 2..])) && ParseNat(s[|s| - 2..]) < 60
    ensures ParseTime(s).value == ParseNat(s[..|s| - 3]) * 60 + ParseNat(s[|s| - 2..])
  {
  }

  lemma {:induction false} ParseNatToString(n: nat)
    ensures ParseNat(NatToString(n)) == n
    decreases n
  {
    var s := NatToString(n);
    if n < 10 {
      assert s[..|s| - 1] == [];
    } else {
      ParseNatToString(n / 10);
      assert s[..|s| - 1] == NatToString(n / 10);
    }
  }

  lemma {:induction false} NatToStringParse(s: string)
    requires Canonical(s)
    ensures NatToString(ParseNat(s)) == s
    decreases |s|
  {
    var p := s[..|s| - 1];
    if |s| == 1 {
      assert p == [];
      assert NatToString(ParseNat(s)) == [s[0]];
    } else {
      assert p[0] == s[0];
      NatToStringParse(p);
      var v := ParseNat(p);
      var d := DigitValue(s[|s| - 1]);
      assert v != 0;
      assert ParseNat(s) / 10 == v && ParseNat(s) % 10 == d;
      assert s == p + [s[|s| - 1]];
    }
  }

  lemma ParseNatPair(a: char, b: char)
    requires IsDigit(a) && IsDigit(b)
    ensures ParseNat([a, b]) == DigitValue(a) * 10 + DigitValue(b)
  {
    var s := [a, b];
    assert s[..1] == [a] && [a][..0] == [];
    assert ParseNat([a]) == DigitValue(a);
  }

  lemma NatToStringPair(v: nat)
    requires 10 <= v < 100
    ensures NatToString(v) == [DigitChar(v / 10), DigitChar(v % 10)]
  {
    assert NatToString(v / 10) == [DigitChar(v / 10)];
  }

  /** The padded seconds part of a value below 100 is exactly two digits that read back as the value. */
  lemma TwoDigits(sec: nat)
    requires sec < 100
    ensures var ss := PadStart(NatToString(sec), 2, '0');
      |ss| == 2 && AllDigits(ss) && ParseNat(ss) == sec
  {
    var ss := PadStart(NatToString(sec), 2, '0');
    if sec < 10 {
      assert ss == ['0', DigitChar(sec)];
      ParseNatPair('0', DigitChar(sec));
    } else {
      NatToStringPair(sec);
      ParseNatPair(DigitChar(sec / 10), DigitChar(sec % 10));
    }
  }

  /** Two digits read as a number below 100 pad back to themselves. */
  lemma TwoDigitsCanonical(ss: string)
    requires |ss| == 2 && AllDigits(ss)
    ensures PadStart(NatToString(ParseNat(ss)), 2, '0') == ss
  {
    var a, b := ss[0], ss[1];
    assert ss == [a, b];
    ParseNatPair(a, b);
    var v := ParseNat(ss);
    if DigitValue(a) == 0 {
      assert a == '0' by { assert DigitChar(DigitValue(a)) == a; }
      assert NatToString(v) == [b];
    } else {
      NatToStringPair(v);
      assert v / 10 == DigitValue(a) && v % 10 == DigitValue(b);
    }
  }

  /**
   For a non-negative time the read-out is the canonical minutes, a colon and
   exactly two seconds digits; the minutes are `t / 60` and the seconds `t % 60`,
   so minutes * 60 + seconds is the time.
   */
  lemma DisplayShape(t: int)
    requires t >= 0
    ensures ReadOut(Display(t), t / 60, t % 60)
    ensures var r := Display(t); |r[|r| - 2..]| == 2 && r[..|r| - 3] == NatToString(t / 60)
  {
    var ms := NatToString(t / 60);
    var ss := PadStart(NatToString(t % 60), 2, '0');
    TwoDigits(t % 60);
    ParseNatToString(t / 60);
    var r := Display(t);
    assert r == ms + ":" + ss;
    assert r[..|r| - 3] == ms;
    assert r[|r| - 2..] == ss;
  }

  /** Reading back the read-out of a non-negative time gives that time. */
  lemma DisplayRoundTrip(t: int)
    requires t >= 0
    ensures ParseTime(Display(t)) == Some(t)
  {
    DisplayShape(t);
    ParseTimeAccepts(Display(t), t / 60, t % 60);
  }

  lemma DivModMinutes(m: nat, sec: nat)
    requires sec < 60
    ensures (m * 60 + sec) / 60 == m && (m * 60 + sec) % 60 == sec
  {
  }

  /** The display of minutes * 60 + seconds, for seconds below 60. */
  lemma DisplayOfParts(m: nat, sec: nat, t: int)
    requires sec < 60 && t == m * 60 + sec
    ensures Display(t) == NatToString(m) + ":" + PadStart(NatToString(sec), 2, '0')
  {
    DivModMinutes(m, sec);
    assert t / 60 == m && JsRemainder60(t) == sec;
  }

  lemma SplitAtColon(s: string)
    requires |s| >= 4 && s[|s| - 3] == ':'
    ensures s == s[..|s| - 3] + ":" + s[|s| - 2..]
  {
  }

  /** A read-out with seconds below 60 is the display of minutes * 60 + seconds. */
  lemma ReadOutIsDisplay(s: string, m: nat, sec: nat, t: int)
    requires ReadOut(s, m, sec) && sec < 60 && t == m * 60 + sec
    ensures Display(t) == s
  {
    NatToStringParse(s[..|s| - 3]);
    TwoDigitsCanonical(s[|s| - 2..]);
    DisplayOfParts(m, sec, t);
    SplitAtColon(s);
  }

  /** The minutes and seconds of a string `ParseTime` accepts. */
  lemma ParseTimeParts(s: string) returns (m: nat, sec: nat)
    requires ParseTime(s).Some?
    ensures ReadOut(s, m, sec) && sec < 60 && ParseTime(s) == Some(m * 60 + sec)
  {
    ParseTimeOnlyReadOuts(s);
    m, sec := ParseNat(s[..|s| - 3]), ParseNat(s[|s| - 2..]);
  }

  /** Every string `ParseTime` accepts is the read-out of the (non-negative) time it returns. */
  lemma ParseTimeIsDisplay(s: string, t: int)
    requires ParseTime(s) == Some(t)
    ensures t >= 0 && Display(t) == s
  {
    var m, sec := ParseTimeParts(s);
    ReadOutIsDisplay(s, m, sec, t);
  }

  /** On non-negative times the read-out and the parser are inverse both ways. */
  lemma DisplayParseInverse(t: int, s: string)
    requires t >= 0
    ensures Display(t) == s <==> ParseTime(s) == Some(t)
  {
    DisplayRoundTrip(t);
    if ParseTime(s) == Some(t) {
      ParseTimeIsDisplay(s, t);
    }
  }

  /** A negative time shows a leading minus sign and is not a read-out `ParseTime` accepts. */
  lemma NegativeDisplay(t: int)
    requires t < 0
    ensures Display(t)[0] == '-'
    ensures ParseTime(Display(t)) == None
  {
    var r := Display(t);
    assert r[0] == IntToString(t / 60)[0];
    if |r| >= 4 {
      assert r[..|r| - 3][0] == '-' && !IsDigit(r[..|r| - 3][0]);
    }
  }

  /** No time left shows as "0:00". */
  lemma DisplayZero()
    ensures Display(0) == "0:00"
  {
    assert NatToString(0) == "0" && PadStart("0", 2, '0') == "00";
  }

  /** A whole number of minutes `m`, negative or not, shows as `m` followed by ":00". */
  lemma WholeMinutesDisplay(m: int)
    ensures Display(m * 60) == IntToString(m) + ":00"
  {
    assert JsRemainder60(m * 60) == 0;
    assert NatToString(0) == "0" && PadStart("0", 2, '0') == "00";
  }

  /** One minute shows as "1:00"; -181 seconds shows as "-4:-1", as JavaScript renders it. */
  lemma DisplayExamples()
    ensures Display(60) == "1:00"
    ensures Display(300) == "5:00"
    ensures Display(-181) == "-4:-1"
  {
    assert NatToString(0) == "0" && NatToString(1) == "1" && NatToString(5) == "5";
    assert PadStart("0", 2, '0') == "00";
    assert NatToString(4) == "4";
    assert IntToString(-1) == "-1" && PadStart("-1", 2, '0') == "-1";
  }
}
