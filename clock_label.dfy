/**
 * The total-time label of `MoviePlayer._update_display_info`:
 * `f"{int(duration // 60):02d}:{int(duration % 60):02d}"`, where `duration` is
 * the integer play duration of the segment. `//` and `%` are Python's floor
 * division and remainder; `:02d` pads with zeros to a width of two, the sign counting in the width.
 */
module ClockLabel {

  import opened Wrappers

  predicate IsDigit(c: char) { '0' <= c <= '9' }

  function DigitChar(d: int): (c: char)
    requires 0 <= d < 10
    ensures IsDigit(c)
  {
    (('0' as int) + d) as char
  }

  function DigitValue(c: char): (d: int)
    requires IsDigit(c)
    ensures 0 <= d < 10
  {
    c as int - '0' as int
  }

  /** Decimal digits of a natural number, most significant first, no leading zero. */
  function Digits(n: nat): (s: string)
    ensures 1 <= |s|
    ensures forall i :: 0 <= i < |s| ==> IsDigit(s[i])
    ensures n < 10 <==> |s| == 1
  {
    if n < 10 then [DigitChar(n)] else Digits(n / 10) + [DigitChar(n % 10)]
  }

  /** Value of a string of decimal digits (leading zeros allowed). */
  function ParseDigits(s: string): int
    requires forall i :: 0 <= i < |s| ==> IsDigit(s[i])
  {
    if s == [] then 0 else 10 * ParseDigits(s[..|s| - 1]) + DigitValue(s[|s| - 1])
  }

  /** `format(n, "02d")`: zero-padded to two characters, the sign included, so
      `-5` gives `"-5"` and `5` gives `"05"`. */
  function Pad2(n: int): (s: string)
    ensures 2 <= |s|
    ensures 0 <= n ==> forall i :: 0 <= i < |s| ==> IsDigit(s[i])
    ensures 0 <= n < 100 ==> |s| == 2
    ensures n < 0 ==> s[0] == '-'
  {
    if n < 0 then "-" + Digits(-n)
    else if n < 10 then ['0'] + Digits(n)
    else Digits(n)
  }

  /** The label `MM:SS`, for any integer number of seconds. */
  function Label(duration: int): (s: string)
    ensures 5 <= |s| && s[|s| - 3] == ':'
    ensures IsDigit(s[|s| - 2]) && IsDigit(s[|s| - 1])
    ensures 0 <= duration ==> forall i :: 0 <= i < |s| - 3 ==> IsDigit(s[i])
    ensures 0 <= duration < 6000 ==> |s| == 5
  {
    Pad2(duration / 60) + ":" + Pad2(duration % 60)
  }

  /** Reads a label back as (minutes, seconds); `None` if it is not one. */
  function ParseLabel(s: string): Option<(int, int)>
  {
    if |s| < 5 || s[|s| - 3] != ':' then None
    else
      var mm, ss := s[..|s| - 3], s[|s| - 2..];
      if !(IsDigit(ss[0]) && IsDigit(ss[1])) then None
      else if mm[0] == '-' && |mm| >= 2 && (forall i :: 1 <= i < |mm| ==> IsDigit(mm[i])) then
        Some((-ParseDigits(mm[1..]), ParseDigits(ss)))
      else if forall i :: 0 <= i < |mm| ==> IsDigit(mm[i]) then
        Some((ParseDigits(mm), ParseDigits(ss)))
      else None
  }

  lemma {:induction false} ParseDigitsOfDigits(n: nat)
    ensures ParseDigits(Digits(n)) == n
  {
    var s := Digits(n);
    if n >= 10 {
      var hi := Digits(n / 10);
      assert s[..|s| - 1] == hi;
      ParseDigitsOfDigits(n / 10);
    }
  }

  lemma ParseDigitsOfPad2(n: int)
    requires 0 <= n
    ensures ParseDigits(Pad2(n)) == n
  {
    ParseDigitsOfDigits(n);
    if n < 10 {
      var s := Pad2(n);
      assert s[..|s| - 1] == "0";
      assert s[..|s| - 1][..0] == [];
    }
  }

  /** The seconds field is exactly two digits in 00..59, and reading the label
      back gives minutes and seconds with `60 * minutes + seconds == duration`. */
  lemma LabelRoundTrip(duration: int)
    ensures ParseLabel(Label(duration)).Some?
    ensures var (m, s) := ParseLabel(Label(duration)).value;
            0 <= s < 60 && 60 * m + s == duration && m == duration / 60
  {
    var m, sec := duration / 60, duration % 60;
    var l := Label(duration);
    var mm, ss := Pad2(m), Pad2(sec);
    assert l == mm + ":" + ss;
    assert l[..|l| - 3] == mm;
    assert l[|l| - 2..] == ss;
    ParseDigitsOfPad2(sec);
    if m < 0 {
      assert mm[1..] == Digits(-m);
      ParseDigitsOfDigits(-m);
    } else {
      ParseDigitsOfPad2(m);
    }
  }
}
