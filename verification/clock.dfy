/**
 The mm:ss text the timer shows for its remaining time.

 The display takes `Math.floor(timeLeft / 60)` as minutes and `timeLeft % 60`
 as seconds, turns each into decimal text and left-pads it with '0' to two
 characters. JavaScript's `%` truncates toward zero while Dafny's is
 Euclidean, so the remainder is written out for negative operands; for a
 positive divisor Dafny's `/` already rounds toward minus infinity, as
 `Math.floor` does.
 */
module Clock {

  predicate IsDigit(c: char) {
    '0' <= c <= '9'
  }

  predicate AllDigits(s: string) {
    forall i :: 0 <= i < |s| ==> IsDigit(s[i])
  }

  predicate AllZeros(s: string) {
    forall i :: 0 <= i < |s| ==> s[i] == '0'
  }

  function DigitChar(d: nat): (c: char)
    requires d < 10
    ensures IsDigit(c)
    ensures c == '0' <==> d == 0
  {
    (48 + d) as char
  }

  function DigitValue(c: char): (d: nat)
    requires IsDigit(c)
    ensures d < 10
  {
    (c as int) - 48
  }

  /** Decimal text of a non-negative integer, as `Number.prototype.toString()`
      writes it: at least one digit and no leading zero. */
  function NatToString(n: nat): (r: string)
    ensures 1 <= |r| && AllDigits(r)
    ensures |r| == 1 <==> n < 10
    ensures n < 100 ==> |r| <= 2
    ensures r[0] == '0' ==> n == 0
  {
    if n < 10 then [DigitChar(n)] else NatToString(n / 10) + [DigitChar(n % 10)]
  }

  /** Decimal text of any integer: a '-' in front of the magnitude when negative. */
  function IntToString(n: int): (r: string)
    ensures 0 <= n ==> AllDigits(r)
    ensures n < 0 ==> |r| >= 2 && r[0] == '-'
  {
    if n < 0 then "-" + NatToString(-n) else NatToString(n)
  }

  /** `k` copies of `c`. */
  function Repeat(c: char, k: nat): (r: string)
    ensures |r| == k
    ensures forall i :: 0 <= i < k ==> r[i] == c
  {
    if k == 0 then [] else [c] + Repeat(c, k - 1)
  }

  /** `String.prototype.padStart(width, fill)` for a one-character fill: the
      text grows on the left up to `width` and is never shortened. */
  function PadStart(s: string, width: nat, fill: char): (r: string)
    ensures |r| == if |s| >= width then |s| else width
    ensures r[|r| - |s|..] == s
    ensures forall i :: 0 <= i < |r| - |s| ==> r[i] == fill
  {
    if |s| >= width then s else Repeat(fill, width - |s|) + s
  }

  /** `Math.floor(t / 60)`. */
  function MinutesPart(t: int): (m: int)
    ensures m * 60 <= t < m * 60 + 60
    ensures 0 <= t <==> 0 <= m
  {
    t / 60
  }

  /** `t % 60` with JavaScript's truncating remainder: the sign follows `t`. */
  function SecondsPart(t: int): (s: int)
    ensures 0 <= t ==> 0 <= s < 60 && MinutesPart(t) * 60 + s == t
    ensures t < 0 ==> -60 < s <= 0
    ensures (t - s) % 60 == 0
  {
    if t >= 0 then t % 60 else -((-t) % 60)
  }

  /** A number as the display writes it: its decimal text, left-padded with
      '0' to at least two characters. */
  function Pad2(n: int): (r: string)
    ensures |r| >= 2
    ensures 0 <= n < 10 ==> r[0] == '0'
  {
    PadStart(IntToString(n), 2, '0')
  }

  /** The text written into the time display for `timeLeft` seconds. */
  function TimeText(timeLeft: int): (r: string)
    ensures 0 <= timeLeft ==> |r| >= 5 && r[|r| - 3] == ':'
    ensures 0 <= timeLeft ==> (|r| == 5 <==> timeLeft < 6000)
  {
    var m := MinutesPart(timeLeft);
    var sec := SecondsPart(timeLeft);
    var text := Pad2(m) + ":" + Pad2(sec);
    if timeLeft < 0 then text else DisplayShape(m, sec); text
  }

  /** In "a:b" with a two-character `b` the colon is third from the end, and
      the text is five characters exactly when `a` has two. */
  lemma ColonShape(a: string, b: string)
    requires |b| == 2
    ensures var r := a + ":" + b;
      |r| == |a| + 3 && r[|r| - 3] == ':' && (|r| == 5 <==> |a| == 2)
  {
    var r := a + ":" + b;
    assert r[|a|] == ':';
  }

  /** Padded minutes and seconds around a colon: the colon is third from the
      end, and the text is five characters exactly when the minutes fit in
      two digits. */
  lemma DisplayShape(m: int, sec: int)
    requires 0 <= m && 0 <= sec < 60
    ensures var r := Pad2(m) + ":" + Pad2(sec);
      |r| >= 5 && r[|r| - 3] == ':' && (|r| == 5 <==> m < 100)
  {
    Pad2Length(m);
    Pad2Length(sec);
    ColonShape(Pad2(m), Pad2(sec));
  }

  datatype Option<T> = None | Some(value: T)

  /** Reads decimal digits back into the number they denote, or None when a
      character is not a digit; leading zeros add nothing. */
  function ParseNat(s: string): Option<nat>
  {
    if s == [] then Some(0)
    else if !IsDigit(s[|s| - 1]) then None
    else match ParseNat(s[..|s| - 1])
      case None => None
      case Some(v) => Some(v * 10 + DigitValue(s[|s| - 1]))
  }

  /** Reads an "m...m:ss" text back into a number of seconds, the reading a
      person makes of the display; None when the text has another shape. */
  function ParseClock(text: string): Option<nat>
  {
    if |text| < 3 || text[|text| - 3] != ':' then None
    else match (ParseNat(text[..|text| - 3]), ParseNat(text[|text| - 2..]))
      case (Some(m), Some(sec)) => Some(m * 60 + sec)
      case _ => None
  }

  lemma {:induction false} ParseNatToString(n: nat)
    ensures ParseNat(NatToString(n)) == Some(n)
    decreases n
  {
    var s := NatToString(n);
    if n >= 10 {
      assert s[..|s| - 1] == NatToString(n / 10);
      ParseNatToString(n / 10);
    }
  }

  lemma {:induction false} ParseNatZeros(z: string)
    requires AllZeros(z)
    ensures ParseNat(z) == Some(0)
    decreases |z|
  {
    if z != [] {
      ParseNatZeros(z[..|z| - 1]);
    }
  }

  /** The decimal text of any integer stands for it: a non-negative number's
      text reads back as the number, and the text after the '-' of a negative
      one reads back as its magnitude. */
  lemma IntToStringReadsBack(n: int)
    ensures 0 <= n ==> ParseNat(IntToString(n)) == Some(n)
    ensures n < 0 ==> ParseNat(IntToString(n)[1..]) == Some(-n)
  {
    if n < 0 {
      NegativeDigits(n);
    } else {
      ParseNatToString(n);
    }
  }

  /** After its '-', the text of a negative number is the text of its
      magnitude. */
  lemma NegativeDigits(n: int)
    requires n < 0
    ensures IntToString(n)[1..] == NatToString(-n)
    ensures ParseNat(NatToString(-n)) == Some(-n)
  {
    var t := NatToString(-n);
    assert IntToString(n) == "-" + t;
    assert ("-" + t)[1..] == t;
    ParseNatToString(-n);
  }

  /** Zeros in front of a text do not change what it reads as. */
  lemma {:induction false} ParseNatLeadingZeros(z: string, s: string)
    requires AllZeros(z)
    ensures ParseNat(z + s) == ParseNat(s)
    decreases |s|
  {
    if s == [] {
      assert z + s == z;
      ParseNatZeros(z);
    } else {
      var u := z + s;
      assert u[..|u| - 1] == z + s[..|s| - 1];
      assert u[|u| - 1] == s[|s| - 1];
      ParseNatLeadingZeros(z, s[..|s| - 1]);
    }
  }

  /** The padded text of a non-negative number is exactly two characters
      when the number is below 100 and its unpadded text otherwise: padding
      never cuts digits off. */
  lemma Pad2Length(n: int)
    requires 0 <= n
    ensures |Pad2(n)| >= 2
    ensures |Pad2(n)| == 2 <==> n < 100
    ensures n >= 100 ==> Pad2(n) == NatToString(n)
  {
    var s := NatToString(n);
    assert IntToString(n) == s;
    if n >= 100 {
      assert n / 10 >= 10;
      assert |NatToString(n / 10)| >= 2;
      assert |s| >= 3;
    } else {
      assert |s| <= 2;
    }
  }

  /** The padded text of a non-negative number reads back as that number. */
  lemma Pad2ReadsBack(n: int)
    requires 0 <= n
    ensures ParseNat(Pad2(n)) == Some(n)
  {
    var s := NatToString(n);
    assert IntToString(n) == s;
    var r := PadStart(s, 2, '0');
    var z := r[..|r| - |s|];
    assert AllZeros(z);
    assert r == z + s;
    ParseNatLeadingZeros(z, s);
    ParseNatToString(n);
  }

  /** Reading "a:b" with a two-character `b` takes `a` as minutes and `b`
      as seconds. */
  lemma ParseClockJoin(a: string, b: string, m: nat, sec: nat)
    requires |b| == 2 && ParseNat(a) == Some(m) && ParseNat(b) == Some(sec)
    ensures ParseClock(a + ":" + b) == Some(m * 60 + sec)
  {
    var text := a + ":" + b;
    assert text[..|text| - 3] == a;
    assert text[|text| - 2..] == b;
  }

  /** The display text of a non-negative time is the padded minutes and the
      padded seconds around a colon. */
  lemma TimeTextParts(t: int)
    requires 0 <= t
    ensures TimeText(t) == Pad2(t / 60) + ":" + Pad2(t % 60)
  {
  }

  /** Padded minutes and seconds around a colon read back as the seconds
      they stand for. */
  lemma PaddedClockReadsBack(m: int, sec: int)
    requires 0 <= m && 0 <= sec < 60
    ensures ParseClock(Pad2(m) + ":" + Pad2(sec)) == Some(m * 60 + sec)
  {
    Pad2Length(sec);
    Pad2ReadsBack(m);
    Pad2ReadsBack(sec);
    ParseClockJoin(Pad2(m), Pad2(sec), m, sec);
  }

  /** The display text of a non-negative time reads back as that time: the
      minutes and seconds it shows lose nothing. */
  lemma TimeTextRoundTrip(t: int)
    requires 0 <= t
    ensures ParseClock(TimeText(t)) == Some(t)
  {
    TimeTextParts(t);
    PaddedClockReadsBack(t / 60, t % 60);
  }
}
