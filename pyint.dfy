/**
 * Python's `str(n)` for an `int` and `int(s)` for a `str`, in base 10 with ASCII digits.
 */
module PyInt {
  import opened Wrappers
  import opened PyStr

  predicate IsDigit(c: char)
  {
    '0' <= c <= '9'
  }

  function DigitChar(d: int): (c: char)
    requires 0 <= d < 10
    ensures IsDigit(c)
  {
    ('0' as int + d) as char
  }

  function DigitValue(c: char): int
    requires IsDigit(c)
  {
    c as int - '0' as int
  }

  /** The decimal digits of a natural number, most significant first, no leading zeros. */
  function Digits(n: nat): (r: string)
    ensures |r| > 0 && forall k :: 0 <= k < |r| ==> IsDigit(r[k])
  {
    if n < 10 then [DigitChar(n)] else Digits(n / 10) + [DigitChar(n % 10)]
  }

  /** `str(n)`: a minus sign for negative numbers, then the digits. */
  function DecimalString(n: int): (r: string)
    ensures |r| > 0 && !IsSpace(r[0]) && !IsSpace(r[|r| - 1])
    ensures forall k :: 0 <= k < |r| ==> r[k] != ' ' && r[k] != '(' && r[k] != '`'
  {
    if n < 0 then "-" + Digits(-n) else Digits(n)
  }

  /** The digit groups `int()` accepts: digits, where single underscores may separate
      two digits. */
  predicate WellFormedDigits(b: string)
  {
    |b| > 0 && IsDigit(b[0]) && IsDigit(b[|b| - 1])
    && (forall k :: 0 <= k < |b| ==> IsDigit(b[k]) || b[k] == '_')
    && (forall k :: 0 <= k < |b| - 1 && b[k] == '_' ==> IsDigit(b[k + 1]))
  }

  /** The number a digit group denotes, underscores ignored. */
  function DigitsValue(b: string): nat
    requires forall k :: 0 <= k < |b| ==> IsDigit(b[k]) || b[k] == '_'
  {
    if b == [] then 0
    else if b[|b| - 1] == '_' then DigitsValue(b[..|b| - 1])
    else DigitsValue(b[..|b| - 1]) * 10 + DigitValue(b[|b| - 1])
  }

  /** The whitespace `int()` skips around the number. CPython first maps every non-ASCII
      whitespace character to a space and then skips only ASCII whitespace, so this is every
      `isspace()` character except the ASCII separators U+001C..U+001F, which stay in place
      and make the text invalid. */
  predicate IsIntSpace(c: char)
  {
    IsSpace(c) && !('\U{1C}' <= c <= '\U{1F}')
  }

  predicate AllIntSpace(s: string)
  {
    forall k :: 0 <= k < |s| ==> IsIntSpace(s[k])
  }

  /** The text without the whitespace `int()` skips in front of the number. */
  function TrimStart(s: string): (r: string)
    ensures |r| <= |s|
  {
    if |s| > 0 && IsIntSpace(s[0]) then TrimStart(s[1..]) else s
  }

  /** The text without the whitespace `int()` skips behind the number. */
  function TrimEnd(s: string): (r: string)
    ensures |r| <= |s|
  {
    if |s| > 0 && IsIntSpace(s[|s| - 1]) then TrimEnd(s[..|s| - 1]) else s
  }

  /** `int(s)`: surrounding whitespace is skipped, then an optional sign and a digit group;
      anything else raises `ValueError`, modelled as `None`. */
  function ParseInt(s: string): Option<int>
  {
    var t := TrimEnd(TrimStart(s));
    var negative := |t| > 0 && t[0] == '-';
    var body := if |t| > 0 && (t[0] == '-' || t[0] == '+') then t[1..] else t;
    if WellFormedDigits(body) then
      var v: int := DigitsValue(body);
      Some(if negative then -v else v)
    else
      None
  }

  lemma {:induction false} DigitsValueOfDigits(n: nat)
    ensures DigitsValue(Digits(n)) == n
  {
    if n >= 10 {
      var d := Digits(n);
      assert d[..|d| - 1] == Digits(n / 10);
      DigitsValueOfDigits(n / 10);
    }
  }

  lemma {:induction false} TrimStartSpace(w: string, s: string)
    requires AllIntSpace(w)
    ensures TrimStart(w + s) == TrimStart(s)
  {
    if |w| > 0 {
      assert (w + s)[1..] == w[1..] + s;
      TrimStartSpace(w[1..], s);
    } else {
      assert w + s == s;
    }
  }

  lemma {:induction false} TrimEndSpace(s: string, w: string)
    requires AllIntSpace(w)
    ensures TrimEnd(s + w) == TrimEnd(s)
  {
    if |w| > 0 {
      assert (s + w)[..|s + w| - 1] == s + w[..|w| - 1];
      TrimEndSpace(s, w[..|w| - 1]);
    } else {
      assert s + w == s;
    }
  }

  /** `int(str(n)) == n` for every integer. */
  lemma ParseDecimal(n: int)
    ensures ParseInt(DecimalString(n)) == Some(n)
  {
    ParsePadded("", n, "");
    assert "" + DecimalString(n) + "" == DecimalString(n);
  }

  /** `int()` reads back the decimal text of any integer, whatever whitespace it skips
      surrounds it. */
  lemma ParsePadded(w1: string, n: int, w2: string)
    requires AllIntSpace(w1) && AllIntSpace(w2)
    ensures ParseInt(w1 + DecimalString(n) + w2) == Some(n)
  {
    var s := DecimalString(n);
    TrimPadded(w1, s, w2);
    var m: nat := if n < 0 then -n else n;
    var body := if n < 0 then s[1..] else s;
    assert body == Digits(m);
    DigitsValueOfDigits(m);
  }

  lemma TrimPadded(w1: string, s: string, w2: string)
    requires AllIntSpace(w1) && AllIntSpace(w2)
    requires |s| > 0 && !IsIntSpace(s[0]) && !IsIntSpace(s[|s| - 1])
    ensures TrimEnd(TrimStart(w1 + s + w2)) == s
  {
    assert w1 + s + w2 == w1 + (s + w2);
    TrimStartSpace(w1, s + w2);
    assert (s + w2)[0] == s[0];
    TrimEndSpace(s, w2);
  }

  /** An ASCII separator such as U+001C is whitespace to `isspace()` but is not skipped by
      `int()`, while a space or a no-break space is. */
  lemma SeparatorNotSkipped()
    ensures ParseInt("\U{1C}1234") == None
    ensures ParseInt(" 1234\U{A0}") == Some(1234)
  {
    assert DecimalString(1234) == "1234";
    ParsePadded(" ", 1234, "\U{A0}");
    assert " " + "1234" + "\U{A0}" == " 1234\U{A0}";
    var t := TrimEnd(TrimStart("\U{1C}1234"));
    assert t == "\U{1C}1234";
  }

  /** An example challenge: "1234". */
  lemma ParseChallengeExample()
    ensures ParseInt("1234") == Some(1234)
  {
    assert DecimalString(1234) == "1234";
    ParseDecimal(1234);
  }
}
