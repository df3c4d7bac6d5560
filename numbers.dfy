/** Decimal digits and Python 2's `int()` on byte strings, and the kilobyte figure of
    the attachment listing. */
module Numbers {
  import opened Wrappers
  import opened Text

  /** Every character of `s` is a decimal digit (the empty string included). */
  predicate AllDigits(s: String) {
    forall k :: 0 <= k < |s| ==> IsDigit(s[k])
  }

  /** `s.isdigit()` on a byte string: non-empty and all decimal digits. */
  predicate IsDigits(s: String) {
    |s| > 0 && AllDigits(s)
  }

  function DigitValue(c: char): nat
    requires IsDigit(c)
  {
    (c as int) - ('0' as int)
  }

  /** The number a string of decimal digits denotes, most significant digit first. */
  function DigitsValue(s: String): nat
    requires AllDigits(s)
  {
    if |s| == 0 then 0 else DigitsValue(s[..|s| - 1]) * 10 + DigitValue(s[|s| - 1])
  }

  /** A digit string denotes zero exactly when all its digits are `0`. */
  lemma {:induction false} ValueZeroIffZeroDigits(s: String)
    requires AllDigits(s)
    ensures DigitsValue(s) == 0 <==> forall k :: 0 <= k < |s| ==> s[k] == '0'
    decreases |s|
  {
    if |s| > 0 {
      var init := s[..|s| - 1];
      ValueZeroIffZeroDigits(init);
      if DigitsValue(s) == 0 {
        forall k | 0 <= k < |s| ensures s[k] == '0' {
          if k < |s| - 1 {
            assert s[k] == init[k];
          }
        }
      }
    }
  }

  /** `s` with trailing whitespace removed. */
  function TrimEnd(s: String): String
    decreases |s|
  {
    if |s| > 0 && IsSpace(s[|s| - 1]) then TrimEnd(s[..|s| - 1]) else s
  }

  /** `s` with leading whitespace removed. */
  function TrimStart(s: String): String
    decreases |s|
  {
    if |s| > 0 && IsSpace(s[0]) then TrimStart(s[1..]) else s
  }

  /** `s` with leading and trailing whitespace removed, as `int()` does first. */
  function Trim(s: String): String
  {
    TrimEnd(TrimStart(s))
  }

  /** Python 2's `int(s)` in base 10: after the surrounding whitespace is removed,
      an optional sign and at least one digit; anything else raises `ValueError`,
      modelled as `None`. */
  function IntValue(s: String): (r: Option<int>)
    ensures r.Some? ==> exists k :: 0 <= k < |s| && IsDigit(s[k])
  {
    var t := Trim(s);
    TrimInside(s);
    if |t| > 0 && (t[0] == '+' || t[0] == '-') then
      if IsDigits(t[1..]) then
        var n: int := DigitsValue(t[1..]);
        assert t[|t| - 1] in t;
        Some(if t[0] == '-' then -n else n)
      else None
    else if IsDigits(t) then
      assert t[|t| - 1] in t;
      Some(DigitsValue(t))
    else None
  }

  /** Trimming keeps only characters of the text. */
  lemma TrimInside(s: String)
    ensures forall c :: c in Trim(s) ==> c in s
  {
    TrimStartInside(s);
    TrimEndInside(TrimStart(s));
  }

  lemma {:induction false} TrimStartInside(s: String)
    ensures forall c :: c in TrimStart(s) ==> c in s
    decreases |s|
  {
    if |s| > 0 && IsSpace(s[0]) {
      TrimStartInside(s[1..]);
      assert forall c :: c in s[1..] ==> c in s;
    }
  }

  lemma {:induction false} TrimEndInside(s: String)
    ensures forall c :: c in TrimEnd(s) ==> c in s
    decreases |s|
  {
    if |s| > 0 && IsSpace(s[|s| - 1]) {
      TrimEndInside(s[..|s| - 1]);
      assert forall c :: c in s[..|s| - 1] ==> c in s;
    }
  }

  /** A digit string is read by `int()` as the number it denotes. */
  lemma IntValueOfDigits(s: String)
    requires IsDigits(s)
    ensures IntValue(s) == Some(DigitsValue(s))
  {
    assert TrimStart(s) == s;
    assert TrimEnd(s) == s;
  }

  /** The kilobyte column of the attachment listing, `int(size) / 1000` in Python 2:
      the size in bytes divided by 1000 and rounded down (toward minus infinity). */
  function KiloBytes(size: String): (r: Option<int>)
    ensures r.Some? <==> IntValue(size).Some?
    ensures r.Some? ==> r.value * 1000 <= IntValue(size).value < r.value * 1000 + 1000
  {
    match IntValue(size)
    case None => None
    case Some(n) => Some(n / 1000)
  }

  /** 1999 bytes are shown as 1 KB: the division truncates and never rounds up. */
  lemma KiloBytesOf1999()
    ensures KiloBytes("1999") == Some(1)
  {
    var s := "1999";
    assert IsDigits(s);
    IntValueOfDigits(s);
    assert s[..3] == "199" && "199"[..2] == "19" && "19"[..1] == "1" && "1"[..0] == "";
    assert DigitsValue("1") == 1;
    assert DigitsValue("19") == 19;
    assert DigitsValue("199") == 199;
    assert DigitsValue(s) == 1999;
  }
}
