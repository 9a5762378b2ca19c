/** The string operations the dashboard relies on: `toLowerCase` (on the
    Latin-1 letters), `includes`, `startsWith`, `split(sep)` fields,
    `String(n)` for a non-negative integer, `padStart` and `parseInt` without
    a radix (decimal, or hexadecimal after a `0x` prefix). */
module Text {
  import opened Common

  /** The lower-case form of a capital of the Basic Latin or Latin-1 blocks
      (A-Z and À-Þ except ×); any other character is kept. */
  function LowerChar(c: char): char {
    if 'A' <= c <= 'Z' || ('\U{C0}' <= c <= '\U{DE}' && c != '\U{D7}') then (c as int + 32) as char else c
  }

  /** `s.toLowerCase()` on the Latin-1 letters; other characters are kept. */
  function Lower(s: string): (r: string)
    ensures |r| == |s|
    ensures forall i :: 0 <= i < |s| ==> r[i] == LowerChar(s[i])
  {
    seq(|s|, i requires 0 <= i < |s| => LowerChar(s[i]))
  }

  predicate StartsWith(s: string, prefix: string) {
    |prefix| <= |s| && s[..|prefix|] == prefix
  }

  /** `xs.join(sep)`. */
  function Join(xs: seq<string>, sep: string): string {
    if xs == [] then "" else if |xs| == 1 then xs[0] else xs[0] + sep + Join(xs[1..], sep)
  }

  /** `hay.includes(needle)`, scanning start positions left to right. */
  function Contains(hay: string, needle: string): bool
    decreases |hay|
  {
    StartsWith(hay, needle) || (hay != [] && Contains(hay[1..], needle))
  }

  /** `needle` occurs in `hay` starting at position `i`. */
  predicate OccursAt(hay: string, needle: string, i: int) {
    0 <= i <= |hay| - |needle| && hay[i..i + |needle|] == needle
  }

  /** Contains holds exactly when the needle occurs at some position of the haystack. */
  lemma {:induction false} ContainsOccurs(hay: string, needle: string)
    ensures Contains(hay, needle) <==> exists i :: OccursAt(hay, needle, i)
    decreases |hay|
  {
    if StartsWith(hay, needle) {
      assert OccursAt(hay, needle, 0);
    } else if hay == [] {
    } else {
      ContainsOccurs(hay[1..], needle);
      if Contains(hay[1..], needle) {
        var i :| OccursAt(hay[1..], needle, i);
        assert hay[i + 1..i + 1 + |needle|] == hay[1..][i..i + |needle|];
        assert OccursAt(hay, needle, i + 1);
      }
      if exists i :: OccursAt(hay, needle, i) {
        var i :| OccursAt(hay, needle, i);
        assert i != 0;
        assert hay[1..][i - 1..i - 1 + |needle|] == hay[i..i + |needle|];
        assert OccursAt(hay[1..], needle, i - 1);
      }
    }
  }

  /** `s.split(sep)[0]`: everything before the first separator, or all of `s`. */
  function FirstField(s: string, sep: char): (r: string)
    ensures sep !in r
    ensures r <= s
    ensures |r| < |s| ==> s[|r|] == sep
  {
    if s == [] || s[0] == sep then [] else [s[0]] + FirstField(s[1..], sep)
  }

  /** The text after the first separator (`split(sep)` has a second field), if any. */
  function AfterFirst(s: string, sep: char): (r: Option<string>)
    ensures r.None? <==> sep !in s
    ensures r.Some? ==> s == FirstField(s, sep) + [sep] + r.value
  {
    var f := FirstField(s, sep);
    if |f| < |s| then
      assert s == f + [sep] + s[|f| + 1..];
      Some(s[|f| + 1..])
    else
      assert f == s;
      None
  }

  /** Whatever follows the first separator never changes the first field. */
  lemma {:induction false} FirstFieldIgnoresTail(a: string, sep: char, t1: string, t2: string)
    ensures FirstField(a + [sep] + t1, sep) == FirstField(a + [sep] + t2, sep)
  {
    if a != [] {
      assert (a + [sep] + t1)[1..] == a[1..] + [sep] + t1;
      assert (a + [sep] + t2)[1..] == a[1..] + [sep] + t2;
      FirstFieldIgnoresTail(a[1..], sep, t1, t2);
    } else {
      assert (a + [sep] + t1)[0] == sep;
      assert (a + [sep] + t2)[0] == sep;
    }
  }

  /** Without a separator the first field is the whole string. */
  lemma {:induction false} FirstFieldNoSep(s: string, sep: char)
    requires sep !in s
    ensures FirstField(s, sep) == s
  {
    if s != [] {
      assert s[0] != sep;
      assert sep !in s[1..];
      FirstFieldNoSep(s[1..], sep);
      assert s == [s[0]] + s[1..];
    }
  }

  /** Splitting `a + sep + t` gives back `a` as the first field exactly when `a`
      holds no separator. */
  lemma FirstFieldOfJoin(a: string, sep: char, t: string)
    ensures FirstField(a + [sep] + t, sep) == a <==> sep !in a
  {
    var s := a + [sep] + t;
    var r := FirstField(s, sep);
    if sep !in a {
      assert s[|a|] == sep;
      assert r == s[..|r|] && a == s[..|a|];
    }
  }

  predicate IsDigit(c: char) {
    '0' <= c <= '9'
  }

  function DigitChar(d: nat): char
    requires d < 10
  {
    ('0' as int + d) as char
  }

  /** `String(n)` for a non-negative integer: decimal, no leading zeros. */
  function NatToString(n: nat): (r: string)
    ensures |r| >= 1
    ensures forall i :: 0 <= i < |r| ==> IsDigit(r[i])
  {
    if n < 10 then [DigitChar(n)] else NatToString(n / 10) + [DigitChar(n % 10)]
  }

  /** The value of a run of decimal digits, most significant first. */
  function DigitsValue(ds: string): nat
    requires forall i :: 0 <= i < |ds| ==> IsDigit(ds[i])
  {
    if ds == [] then 0
    else
      assert IsDigit(ds[|ds| - 1]);
      DigitsValue(ds[..|ds| - 1]) * 10 + (ds[|ds| - 1] as int - '0' as int)
  }

  /** The longest prefix of decimal digits. */
  function DigitRun(s: string): (r: string)
    ensures |r| <= |s| && r == s[..|r|]
    ensures forall i :: 0 <= i < |r| ==> IsDigit(r[i])
    ensures |r| < |s| ==> !IsDigit(s[|r|])
  {
    if s == [] || !IsDigit(s[0]) then [] else [s[0]] + DigitRun(s[1..])
  }

  /** White space `parseInt` skips before the number: tab, vertical tab, form
      feed, the space separators (space, no-break space, ogham space mark,
      U+2000 to U+200A, narrow no-break space, medium mathematical space,
      ideographic space), the byte-order mark and the four line terminators. */
  predicate IsSpace(c: char) {
    || '\t' <= c <= '\r'
    || c == ' ' || c == '\U{A0}' || c == '\U{1680}'
    || '\U{2000}' <= c <= '\U{200A}'
    || c == '\U{2028}' || c == '\U{2029}' || c == '\U{202F}' || c == '\U{205F}'
    || c == '\U{3000}' || c == '\U{FEFF}'
  }

  /** A string that starts with something other than white space is its own trim. */
  lemma TrimStartKeeps(s: string)
    requires s != [] && !IsSpace(s[0])
    ensures TrimStart(s) == s
  {
  }

  /** `s` without its leading white space: a suffix of `s` that is empty or
      starts with something else (TrimStartSkipsSpace: all it drops is space). */
  function TrimStart(s: string): (r: string)
    ensures |r| <= |s| && r == s[|s| - |r|..]
    ensures r == [] || !IsSpace(r[0])
  {
    if s != [] && IsSpace(s[0]) then TrimStart(s[1..]) else s
  }

  /** Every character TrimStart drops is white space. */
  lemma {:induction false} TrimStartSkipsSpace(s: string)
    ensures forall i :: 0 <= i < |s| - |TrimStart(s)| ==> IsSpace(s[i])
  {
    if s != [] && IsSpace(s[0]) {
      TrimStartSkipsSpace(s[1..]);
      forall i | 1 <= i < |s| - |TrimStart(s)| ensures IsSpace(s[i]) {
        assert s[i] == s[1..][i - 1];
      }
    }
  }

  predicate IsHexDigit(c: char) {
    IsDigit(c) || 'a' <= c <= 'f' || 'A' <= c <= 'F'
  }

  function HexDigitValue(c: char): (r: nat)
    requires IsHexDigit(c)
    ensures r < 16
  {
    if IsDigit(c) then c as int - '0' as int
    else if 'a' <= c <= 'f' then c as int - 'a' as int + 10
    else c as int - 'A' as int + 10
  }

  /** The longest prefix of hexadecimal digits. */
  function HexRun(s: string): (r: string)
    ensures |r| <= |s| && r == s[..|r|]
    ensures forall i :: 0 <= i < |r| ==> IsHexDigit(r[i])
    ensures |r| < |s| ==> !IsHexDigit(s[|r|])
  {
    if s == [] || !IsHexDigit(s[0]) then [] else [s[0]] + HexRun(s[1..])
  }

  /** The value of a run of hexadecimal digits, most significant first. */
  function HexValue(hs: string): nat
    requires forall i :: 0 <= i < |hs| ==> IsHexDigit(hs[i])
  {
    if hs == [] then 0
    else
      assert IsHexDigit(hs[|hs| - 1]);
      HexValue(hs[..|hs| - 1]) * 16 + HexDigitValue(hs[|hs| - 1])
  }

  /** `0x` or `0X`: the prefix that switches `parseInt` without a radix to base 16. */
  predicate HexPrefixed(s: string) {
    |s| >= 2 && s[0] == '0' && (s[1] == 'x' || s[1] == 'X')
  }

  /** The unsigned number at the start of `s`: the hexadecimal digits after a
      `0x` prefix, otherwise the decimal digits; no digits at all is `NaN` (None). */
  function Magnitude(s: string): (r: Option<nat>)
    ensures r.Some? ==> (HexPrefixed(s) && |s| > 2 && IsHexDigit(s[2])) || (!HexPrefixed(s) && s != [] && IsDigit(s[0]))
  {
    if HexPrefixed(s) then
      var hs := HexRun(s[2..]);
      if hs == [] then None else Some(HexValue(hs))
    else
      var ds := DigitRun(s);
      if ds == [] then None else Some(DigitsValue(ds))
  }

  /** `parseInt(s)` with no radix: leading white space is skipped, then an
      optional sign; after it a `0x`/`0X` prefix reads hexadecimal digits and
      anything else decimal digits, up to the first character that is not a
      digit; no digits at all is `NaN` (None). */
  function ParseInt(s0: string): (r: Option<int>)
    ensures var s := TrimStart(s0);
      r.Some? ==> (|s| > 0 && IsDigit(s[0])) || (|s| > 1 && (s[0] == '+' || s[0] == '-') && IsDigit(s[1]))
    ensures var s := TrimStart(s0);
      r.Some? && r.value < 0 ==> s[0] == '-'
  {
    var s := TrimStart(s0);
    if s != [] && (s[0] == '-' || s[0] == '+') then
      var m := Magnitude(s[1..]);
      if m.None? then None
      else if s[0] == '-' then Some(-(m.value as int)) else Some(m.value)
    else
      var m := Magnitude(s);
      if m.None? then None else Some(m.value)
  }

  lemma {:induction false} HexRunOfHexDigits(hs: string)
    requires forall i :: 0 <= i < |hs| ==> IsHexDigit(hs[i])
    ensures HexRun(hs) == hs
  {
    if hs != [] {
      HexRunOfHexDigits(hs[1..]);
    }
  }

  /** A string starting with a digit is read without trimming or a sign. */
  lemma ParseIntUnsigned(u: string, v: nat)
    requires u != [] && IsDigit(u[0]) && Magnitude(u) == Some(v)
    ensures ParseInt(u) == Some(v)
  {
    TrimStartKeeps(u);
  }

  /** A minus sign in front of a string starting with `0` negates its number. */
  lemma ParseIntNegated(u: string, v: nat)
    requires u != [] && u[0] == '0' && Magnitude(u) == Some(v)
    ensures ParseInt("-" + u) == Some(-(v as int))
  {
    var n := "-" + u;
    assert n[0] == '-' && n[1..] == u;
    TrimStartKeeps(n);
  }

  /** After a `0x` or `0X` prefix, a run of hexadecimal digits is read in base 16. */
  lemma MagnitudeOfHex(x: char, hs: string)
    requires x == 'x' || x == 'X'
    requires hs != [] && forall i :: 0 <= i < |hs| ==> IsHexDigit(hs[i])
    ensures Magnitude(['0', x] + hs) == Some(HexValue(hs))
  {
    var u := ['0', x] + hs;
    assert HexPrefixed(u) && u[2..] == hs;
    HexRunOfHexDigits(hs);
  }

  /** `parseInt("0x" + hs)` reads the hexadecimal digits `hs`, whichever case
      the `x` has. */
  lemma ParseIntOfHex(x: char, hs: string)
    requires x == 'x' || x == 'X'
    requires hs != [] && forall i :: 0 <= i < |hs| ==> IsHexDigit(hs[i])
    ensures ParseInt(['0', x] + hs) == Some(HexValue(hs))
  {
    MagnitudeOfHex(x, hs);
    ParseIntUnsigned(['0', x] + hs, HexValue(hs));
  }

  /** `parseInt("-0x" + hs)` is the negated value of the hexadecimal digits `hs`. */
  lemma ParseIntOfNegativeHex(x: char, hs: string)
    requires x == 'x' || x == 'X'
    requires hs != [] && forall i :: 0 <= i < |hs| ==> IsHexDigit(hs[i])
    ensures ParseInt("-" + (['0', x] + hs)) == Some(-(HexValue(hs) as int))
  {
    MagnitudeOfHex(x, hs);
    ParseIntNegated(['0', x] + hs, HexValue(hs));
  }

  /** The year 2024 written in hexadecimal is read as 2024. */
  lemma HexYear()
    ensures ParseInt("0x7E8") == Some(2024)
  {
    var hs := "7E8";
    assert ['0', 'x'] + hs == "0x7E8";
    HexValue2024();
    ParseIntOfHex('x', hs);
  }

  lemma HexValue2024()
    ensures HexValue("7E8") == 2024
  {
    var hs := "7E8";
    assert HexValue(hs[..1]) == 7 by {
      assert hs[..1][..0] == [];
    }
    assert HexValue(hs[..2]) == 126 by {
      assert hs[..2][..1] == hs[..1];
    }
    assert hs[..|hs| - 1] == hs[..2];
  }

  /** The empty string has no digits: `parseInt("")` is `NaN`. */
  lemma ParseIntEmpty()
    ensures ParseInt("") == None
  {
  }

  lemma {:induction false} DigitRunOfDigits(ds: string)
    requires forall i :: 0 <= i < |ds| ==> IsDigit(ds[i])
    ensures DigitRun(ds) == ds
  {
    if ds != [] {
      DigitRunOfDigits(ds[1..]);
    }
  }

  lemma {:induction false} DigitsValueOfNat(n: nat)
    ensures DigitsValue(NatToString(n)) == n
  {
    var r := NatToString(n);
    if n >= 10 {
      DigitsValueOfNat(n / 10);
      assert r[..|r| - 1] == NatToString(n / 10);
    }
  }

  /** A leading zero does not change the value of a digit run. */
  lemma {:induction false} LeadingZero(ds: string)
    requires forall i :: 0 <= i < |ds| ==> IsDigit(ds[i])
    ensures DigitsValue("0" + ds) == DigitsValue(ds)
  {
    if ds != [] {
      var z := "0" + ds;
      assert z[..|z| - 1] == "0" + ds[..|ds| - 1];
      LeadingZero(ds[..|ds| - 1]);
    }
  }

  /** A run of decimal digits is read as its value: it starts with no white
      space, no sign and no `0x` prefix. */
  lemma ParseIntOfDigits(ds: string)
    requires ds != [] && forall i :: 0 <= i < |ds| ==> IsDigit(ds[i])
    ensures ParseInt(ds) == Some(DigitsValue(ds))
  {
    MagnitudeOfDigits(ds);
    ParseIntUnsigned(ds, DigitsValue(ds));
  }

  /** Without a `0x` prefix, a run of decimal digits is read in base 10. */
  lemma MagnitudeOfDigits(ds: string)
    requires ds != [] && forall i :: 0 <= i < |ds| ==> IsDigit(ds[i])
    ensures Magnitude(ds) == Some(DigitsValue(ds))
  {
    DigitRunOfDigits(ds);
    assert !HexPrefixed(ds) by {
      if |ds| >= 2 {
        assert IsDigit(ds[1]);
      }
    }
  }

  /** `parseInt(String(n))` gives `n` back. */
  lemma ParseIntOfNat(n: nat)
    ensures ParseInt(NatToString(n)) == Some(n)
  {
    ParseIntOfDigits(NatToString(n));
    DigitsValueOfNat(n);
  }

  /** `s.padStart(width, fill)`. */
  function PadStart(s: string, width: nat, fill: char): (r: string)
    ensures |r| == if |s| >= width then |s| else width
    ensures |s| >= width ==> r == s
    ensures |s| < width ==> r[width - |s|..] == s && forall i :: 0 <= i < width - |s| ==> r[i] == fill
  {
    if |s| >= width then s else seq(width - |s|, _ => fill) + s
  }

  /** `String(k).padStart(2, '0')` read back with `parseInt` gives `k`. */
  lemma ParseIntOfPadded(k: nat)
    ensures ParseInt(PadStart(NatToString(k), 2, '0')) == Some(k)
  {
    var s := NatToString(k);
    DigitsValueOfNat(k);
    if |s| >= 2 {
      ParseIntOfNat(k);
    } else {
      var p := PadStart(s, 2, '0');
      assert p == "0" + s;
      ParseIntOfDigits(p);
      LeadingZero(s);
    }
  }
}
