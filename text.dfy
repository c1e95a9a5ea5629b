/**
 * The few JavaScript string operations the app relies on, with the
 * semantics JavaScript gives them: `trim`, `toLowerCase`, `String(n)`,
 * `padStart(2, '0')` and `Array.prototype.join`.
 */
module Text {

  /** The code points JavaScript's `trim` removes and the regular-expression
      class `\s` matches: ECMAScript WhiteSpace and LineTerminator. */
  predicate IsSpace(c: char) {
    || c == '\t' || c == '\n' || c == '\U{000B}' || c == '\U{000C}' || c == '\r' || c == ' '
    || c == '\U{00A0}' || c == '\U{1680}' || ('\U{2000}' <= c <= '\U{200A}')
    || c == '\U{2028}' || c == '\U{2029}' || c == '\U{202F}' || c == '\U{205F}'
    || c == '\U{3000}' || c == '\U{FEFF}'
  }

  predicate AllSpace(s: string) {
    forall i :: 0 <= i < |s| ==> IsSpace(s[i])
  }

  /** Leading whitespace removed: what is dropped is all whitespace and
      what remains does not start with whitespace. */
  function TrimStart(s: string): (r: string)
    ensures |r| <= |s| && r == s[|s| - |r|..]
    ensures AllSpace(s[..|s| - |r|])
    ensures r == [] || !IsSpace(r[0])
  {
    if |s| > 0 && IsSpace(s[0]) then TrimStart(s[1..]) else s
  }

  /** Trailing whitespace removed. */
  function TrimEnd(s: string): (r: string)
    ensures |r| <= |s| && r == s[..|r|]
    ensures AllSpace(s[|r|..])
    ensures r == [] || !IsSpace(r[|r| - 1])
  {
    if |s| > 0 && IsSpace(s[|s| - 1]) then
      var r := TrimEnd(s[..|s| - 1]);
      assert s[|r|..] == s[..|s| - 1][|r|..] + [s[|s| - 1]];
      r
    else
      s
  }

  /** `s.trim()` */
  function Trim(s: string): string {
    TrimEnd(TrimStart(s))
  }

  lemma {:induction false} TrimStartAppend(s: string, t: string)
    ensures TrimStart(s + t) == if AllSpace(s) then TrimStart(t) else TrimStart(s) + t
  {
    if s != [] {
      assert (s + t)[1..] == s[1..] + t;
      if IsSpace(s[0]) {
        TrimStartAppend(s[1..], t);
        assert AllSpace(s) == AllSpace(s[1..]);
      } else {
        assert !AllSpace(s);
      }
    } else {
      assert s + t == t;
    }
  }

  lemma {:induction false} TrimEndAppend(s: string, t: string)
    ensures TrimEnd(s + t) == if AllSpace(t) then TrimEnd(s) else s + TrimEnd(t)
  {
    if t != [] {
      assert (s + t)[..|s + t| - 1] == s + t[..|t| - 1];
      if IsSpace(t[|t| - 1]) {
        TrimEndAppend(s, t[..|t| - 1]);
        assert AllSpace(t) == AllSpace(t[..|t| - 1]);
      } else {
        assert !AllSpace(t);
      }
    } else {
      assert s + t == s;
    }
  }

  /** Whitespace typed around a string does not survive `trim`. */
  lemma TrimIgnoresPadding(before: string, s: string, after: string)
    requires AllSpace(before) && AllSpace(after)
    ensures Trim(before + s + after) == Trim(s)
  {
    assert before + s + after == before + (s + after);
    TrimStartAppend(before, s + after);
    TrimStartAppend(s, after);
    TrimStartAppend(after, []);
    assert after + [] == after;
    if !AllSpace(s) {
      TrimEndAppend(TrimStart(s), after);
    } else {
      TrimStartAppend(s, []);
      assert s + [] == s;
    }
  }

  /** `toLowerCase` on ASCII letters; every other code point is kept. */
  function LowerChar(c: char): (r: char)
  {
    if 'A' <= c <= 'Z' then (c as int + 32) as char else c
  }

  /** `s.toLowerCase()` */
  function ToLower(s: string): (r: string)
    ensures |r| == |s|
    ensures forall i :: 0 <= i < |s| ==> r[i] == LowerChar(s[i])
  {
    seq(|s|, i requires 0 <= i < |s| => LowerChar(s[i]))
  }

  lemma LowerKeepsSpace(c: char)
    ensures IsSpace(LowerChar(c)) == IsSpace(c)
  {
  }

  lemma LowerSlice(s: string, i: nat, j: nat)
    requires i <= j <= |s|
    ensures ToLower(s)[i..j] == ToLower(s[i..j])
  {
  }

  lemma {:induction false} TrimStartLower(s: string)
    ensures TrimStart(ToLower(s)) == ToLower(TrimStart(s))
  {
    if |s| > 0 {
      LowerKeepsSpace(s[0]);
      if IsSpace(s[0]) {
        assert ToLower(s)[1..] == ToLower(s[1..]);
        TrimStartLower(s[1..]);
      }
    } else {
      assert ToLower(s) == [];
    }
  }

  lemma {:induction false} TrimEndLower(s: string)
    ensures TrimEnd(ToLower(s)) == ToLower(TrimEnd(s))
  {
    if |s| > 0 {
      LowerKeepsSpace(s[|s| - 1]);
      if IsSpace(s[|s| - 1]) {
        LowerSlice(s, 0, |s| - 1);
        TrimEndLower(s[..|s| - 1]);
      }
    } else {
      assert ToLower(s) == [];
    }
  }

  /** `trim` and `toLowerCase` commute. */
  lemma TrimLowerCommute(s: string)
    ensures Trim(ToLower(s)) == ToLower(Trim(s))
  {
    TrimStartLower(s);
    TrimEndLower(TrimStart(s));
  }

  /** `s.trim().toLowerCase()`: the form in which an e-mail address is
      used as an account key. */
  function Normalize(s: string): string {
    ToLower(Trim(s))
  }

  /** Two spellings that differ only in letter case and in whitespace
      around them name the same account. */
  lemma NormalizeIgnoresCaseAndPadding(before: string, s: string, after: string, t: string)
    requires AllSpace(before) && AllSpace(after)
    requires ToLower(s) == ToLower(t)
    ensures Normalize(before + s + after) == Normalize(t)
  {
    TrimIgnoresPadding(before, s, after);
    TrimLowerCommute(s);
    TrimLowerCommute(t);
  }

  predicate IsDigit(c: char) {
    '0' <= c <= '9'
  }

  function DigitChar(d: nat): (c: char)
    requires d < 10
    ensures IsDigit(c)
  {
    ('0' as int + d) as char
  }

  function DigitValue(c: char): (d: nat)
    requires IsDigit(c)
    ensures d < 10
  {
    c as int - '0' as int
  }

  /** `String(n)` for a non-negative integer: its decimal digits, without
      leading zeros. */
  function DecimalString(n: nat): (r: string)
    ensures 1 <= |r|
    ensures forall i :: 0 <= i < |r| ==> IsDigit(r[i])
    ensures |r| > 1 ==> r[0] != '0'
    ensures n < 10 <==> |r| == 1
    ensures n < 100 ==> |r| <= 2
  {
    if n < 10 then [DigitChar(n)] else DecimalString(n / 10) + [DigitChar(n % 10)]
  }

  /** The inverse reading of a string of decimal digits. */
  function ParseDecimal(s: string): nat
    requires forall i :: 0 <= i < |s| ==> IsDigit(s[i])
  {
    if s == [] then 0 else ParseDecimal(s[..|s| - 1]) * 10 + DigitValue(s[|s| - 1])
  }

  lemma {:induction false} DecimalRoundTrip(n: nat)
    ensures ParseDecimal(DecimalString(n)) == n
  {
    var r := DecimalString(n);
    if n >= 10 {
      DecimalRoundTrip(n / 10);
      assert r[..|r| - 1] == DecimalString(n / 10);
    }
  }

  /** `s.padStart(2, '0')` */
  function PadStart2(s: string): (r: string)
    ensures |s| >= 2 ==> r == s
    ensures |s| < 2 ==> |r| == 2 && r[2 - |s|..] == s && forall i :: 0 <= i < 2 - |s| ==> r[i] == '0'
  {
    if |s| >= 2 then s else if |s| == 1 then "0" + s else "00"
  }

  /** `names.join(sep)` */
  function Join(names: seq<string>, sep: string): (r: string)
    decreases |names|
  {
    if |names| == 0 then ""
    else if |names| == 1 then names[0]
    else names[0] + sep + Join(names[1..], sep)
  }

  function TotalLength(names: seq<string>): nat
  {
    if names == [] then 0 else |names[0]| + TotalLength(names[1..])
  }

  /** The joined string is as long as every name plus one separator
      between each two neighbours. */
  lemma {:induction false} JoinLength(names: seq<string>, sep: string)
    requires names != []
    ensures |Join(names, sep)| == TotalLength(names) + (|names| - 1) * |sep|
  {
    if |names| > 1 {
      JoinLength(names[1..], sep);
    }
  }

  /** Joining one more name appends the separator and that name: the
      joined text is the names in order with one separator between each
      two neighbours. */
  lemma {:induction false} JoinSnoc(names: seq<string>, n: string, sep: string)
    requires names != []
    ensures Join(names + [n], sep) == Join(names, sep) + sep + n
    decreases |names|
  {
    var all := names + [n];
    assert all[0] == names[0] && all[1..] == names[1..] + [n];
    if |names| == 1 {
      assert all[1..] == [n];
    } else {
      JoinSnoc(names[1..], n, sep);
    }
  }

  /** `s.slice(0, end)`: a negative `end` counts back from the end of `s`
      and an `end` past the end stops there. */
  function SliceTo(s: string, end: int): (r: string)
    ensures 0 <= end <= |s| ==> r == s[..end]
    ensures end < 0 ==> |r| == if |s| + end < 0 then 0 else |s| + end
    ensures |r| <= |s| && r == s[..|r|]
  {
    var stop := if end < 0 then (if |s| + end < 0 then 0 else |s| + end)
                else if end > |s| then |s| else end;
    s[..stop]
  }
}
