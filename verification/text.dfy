/** String handling the pipeline borrows from Python: the whitespace test
    behind `str.strip()`, stripping itself, lower-casing, and the decimal
    rendering used in `f"doc_{n}"`. */
module Text {
  import opened Results

  /** Python's `str.isspace()` for one character: the ASCII controls
      tab to carriage return, the separators 0x1C-0x1F, space, and the
      Unicode space characters. */
  predicate IsSpace(c: char)
  {
    || ('\U{0009}' <= c <= '\U{000D}')
    || ('\U{001C}' <= c <= '\U{0020}')
    || c == '\U{0085}' || c == '\U{00A0}' || c == '\U{1680}'
    || ('\U{2000}' <= c <= '\U{200A}')
    || c == '\U{2028}' || c == '\U{2029}' || c == '\U{202F}' || c == '\U{205F}'
    || c == '\U{3000}'
  }

  /** Whitespace only (the empty string included): exactly the strings whose
      `strip()` is falsy. */
  predicate IsBlank(s: string)
  {
    forall i :: 0 <= i < |s| ==> IsSpace(s[i])
  }

  /** `s.lstrip()`: the suffix left after dropping leading whitespace. */
  function TrimStart(s: string): (r: string)
    ensures |r| <= |s|
  {
    if |s| > 0 && IsSpace(s[0]) then TrimStart(s[1..]) else s
  }

  /** What `lstrip()` drops is whitespace, and what it keeps is a suffix that
      starts with a non-whitespace character. */
  lemma {:induction false} TrimStartFacts(s: string)
    ensures TrimStart(s) == s[|s| - |TrimStart(s)|..]
    ensures forall i :: 0 <= i < |s| - |TrimStart(s)| ==> IsSpace(s[i])
    ensures |TrimStart(s)| > 0 ==> !IsSpace(TrimStart(s)[0])
  {
    if |s| > 0 && IsSpace(s[0]) {
      TrimStartFacts(s[1..]);
      var r := TrimStart(s);
      assert forall i :: 1 <= i < |s| - |r| ==> s[i] == s[1..][i - 1];
    }
  }

  /** `s.rstrip()`: the prefix left after dropping trailing whitespace. */
  function TrimEnd(s: string): (r: string)
    ensures |r| <= |s|
  {
    if |s| > 0 && IsSpace(s[|s| - 1]) then TrimEnd(s[..|s| - 1]) else s
  }

  /** What `rstrip()` drops is whitespace, and what it keeps is a prefix that
      ends with a non-whitespace character. */
  lemma {:induction false} TrimEndFacts(s: string)
    ensures TrimEnd(s) == s[..|TrimEnd(s)|]
    ensures forall i :: |TrimEnd(s)| <= i < |s| ==> IsSpace(s[i])
    ensures |TrimEnd(s)| > 0 ==> !IsSpace(TrimEnd(s)[|TrimEnd(s)| - 1])
  {
    if |s| > 0 && IsSpace(s[|s| - 1]) {
      TrimEndFacts(s[..|s| - 1]);
      var r := TrimEnd(s);
      assert forall i :: |r| <= i < |s| - 1 ==> s[i] == s[..|s| - 1][i];
    }
  }

  /** `r` occurs in `s` starting at index `a`. */
  ghost predicate InfixAt(r: string, s: string, a: int)
  {
    0 <= a <= |s| - |r| && r == s[a..a + |r|]
  }

  /** `s.strip()`: the infix between the leading and trailing whitespace. */
  function Strip(s: string): (r: string)
    ensures r == [] <==> IsBlank(s)
    ensures |r| > 0 ==> !IsSpace(r[0]) && !IsSpace(r[|r| - 1])
  {
    StripBlank(s);
    StripEnds(s);
    TrimEnd(TrimStart(s))
  }

  /** `strip()` keeps the piece of `s` that starts after the leading
      whitespace, and everything it drops before and after that piece is
      whitespace. */
  lemma StripInfix(s: string)
    ensures InfixAt(Strip(s), s, |s| - |TrimStart(s)|)
    ensures forall i :: 0 <= i < |s| - |TrimStart(s)| ==> IsSpace(s[i])
    ensures forall i :: |s| - |TrimStart(s)| + |Strip(s)| <= i < |s| ==> IsSpace(s[i])
  {
    var t := TrimStart(s);
    var a := |s| - |t|;
    TrimStartFacts(s);
    TrimEndFacts(t);
    StripAt(s);
    forall i | a + |Strip(s)| <= i < |s|
      ensures IsSpace(s[i])
    {
      assert s[i] == t[i - a];
    }
  }

  /** Stripping leaves nothing exactly when the string is whitespace only. */
  lemma StripBlank(s: string)
    ensures TrimEnd(TrimStart(s)) == [] <==> IsBlank(s)
  {
    var t := TrimStart(s);
    var a := |s| - |t|;
    TrimStartFacts(s);
    TrimEndFacts(t);
    if TrimEnd(t) == [] {
      assert t == [];
    } else {
      assert t[0] == s[a];
    }
  }

  /** What stripping keeps starts and ends with a non-whitespace character. */
  lemma StripEnds(s: string)
    ensures |TrimEnd(TrimStart(s))| > 0 ==>
      && !IsSpace(TrimEnd(TrimStart(s))[0])
      && !IsSpace(TrimEnd(TrimStart(s))[|TrimEnd(TrimStart(s))| - 1])
  {
    var t := TrimStart(s);
    TrimStartFacts(s);
    TrimEndFacts(t);
    if |TrimEnd(t)| > 0 {
      assert TrimEnd(t)[0] == t[0];
    }
  }

  /** What stripping keeps sits in `s` right after the leading whitespace. */
  lemma StripAt(s: string)
    ensures InfixAt(TrimEnd(TrimStart(s)), s, |s| - |TrimStart(s)|)
  {
    var t := TrimStart(s);
    TrimStartFacts(s);
    TrimEndFacts(t);
    var a := |s| - |t|;
    assert TrimEnd(t) == s[a..a + |TrimEnd(t)|];
  }

  /** Python's truthiness of `s.strip()`. */
  method StripsToText(s: string) returns (b: bool)
    ensures b <==> !IsBlank(s)
  {
    b := Strip(s) != [];
  }

  /** Stripping a stripped string changes nothing. */
  lemma StripIdempotent(s: string)
    ensures Strip(Strip(s)) == Strip(s)
  {
    var r := Strip(s);
    var t := TrimStart(r);
    if |r| > 0 {
      assert t == r;
      assert TrimEnd(r) == r;
    }
  }

  /** ASCII lower-casing of one character. */
  function LowerChar(c: char): char
  {
    if 'A' <= c <= 'Z' then (c as int - 'A' as int + 'a' as int) as char else c
  }

  /** `s.lower()` restricted to ASCII letters. */
  function Lower(s: string): string
    decreases |s|
  {
    if |s| == 0 then [] else [LowerChar(s[0])] + Lower(s[1..])
  }

  /** Lower-casing keeps the length and maps each character on its own. */
  lemma {:induction false} LowerAt(s: string)
    ensures |Lower(s)| == |s|
    ensures forall i :: 0 <= i < |s| ==> Lower(s)[i] == LowerChar(s[i])
    decreases |s|
  {
    if |s| > 0 {
      LowerAt(s[1..]);
      forall i | 1 <= i < |s|
        ensures Lower(s)[i] == LowerChar(s[i])
      {
        assert Lower(s)[i] == Lower(s[1..])[i - 1];
      }
    }
  }

  function DigitChar(d: nat): char
    requires d < 10
  {
    ('0' as int + d) as char
  }

  /** Decimal rendering of a natural number, as `str(n)`. */
  function Decimal(n: nat): (r: string)
    ensures 0 < |r|
    ensures forall i :: 0 <= i < |r| ==> '0' <= r[i] <= '9'
    decreases n
  {
    if n < 10 then [DigitChar(n)] else Decimal(n / 10) + [DigitChar(n % 10)]
  }

  /** Reads a string of decimal digits back as a number; `None` when a
      character is not a digit or the string is empty. */
  function ParseDecimal(s: string): Option<nat>
    decreases |s|
  {
    if |s| == 0 || !('0' <= s[|s| - 1] <= '9') then None
    else if |s| == 1 then Some(s[0] as int - '0' as int)
    else
      match ParseDecimal(s[..|s| - 1])
      case None => None
      case Some(high) => Some(high * 10 + (s[|s| - 1] as int - '0' as int))
  }

  /** Decimal rendering is undone by parsing. */
  lemma {:induction false} DecimalRoundTrip(n: nat)
    ensures ParseDecimal(Decimal(n)) == Some(n)
    decreases n
  {
    if n >= 10 {
      DecimalRoundTrip(n / 10);
      var s := Decimal(n);
      assert s[..|s| - 1] == Decimal(n / 10);
    }
  }
}
