/** The handful of Python string and integer operations the gradient tool
    relies on: `str.split`/`str.join` with a one-character separator,
    `strip`/`rstrip`, `lower`, `isdigit`, `int(...)` on a string, and the
    decimal (`f"{n}"`) and two-digit hexadecimal (`f"{n:02x}"`) renderings
    of an integer. Characters outside ASCII are treated as plain characters
    (no Unicode case mapping, digits or spaces). */
module Strings {

  datatype Option<T> = None | Some(value: T)

  // ---------------------------------------------------------------------
  // Stripping

  /** The ASCII characters `str.strip()` removes: tab, line feed, vertical
      tab, form feed, carriage return, the four information separators
      (28 to 31) and space. */
  const Whitespace: set<char> := {'\t', '\n', 11 as char, 12 as char, '\r', 28 as char, 29 as char, 30 as char, 31 as char, ' '}

  /** `s.rstrip(chars)`: the longest prefix of `s` that does not end in one of `chars`. */
  function RStrip(s: string, chars: set<char>): (r: string)
    ensures r <= s
    ensures r == [] || r[|r| - 1] !in chars
    ensures forall i :: |r| <= i < |s| ==> s[i] in chars
  {
    if |s| > 0 && s[|s| - 1] in chars then RStrip(s[..|s| - 1], chars) else s
  }

  /** `s.lstrip(chars)`: the longest suffix of `s` that does not start with one of `chars`. */
  function LStrip(s: string, chars: set<char>): (r: string)
    ensures |r| <= |s| && r == s[|s| - |r|..]
    ensures r == [] || r[0] !in chars
    ensures forall i :: 0 <= i < |s| - |r| ==> s[i] in chars
  {
    if |s| > 0 && s[0] in chars then LStrip(s[1..], chars) else s
  }

  /** `s.strip()` */
  function Strip(s: string): string
  {
    LStrip(RStrip(s, Whitespace), Whitespace)
  }

  /** `not s.strip()`: the string is empty or made of whitespace only. */
  lemma StripEmptyIffBlank(s: string)
    ensures Strip(s) == [] <==> forall i :: 0 <= i < |s| ==> s[i] in Whitespace
  {
    var t := RStrip(s, Whitespace);
    if Strip(s) == [] {
      forall i | 0 <= i < |s| ensures s[i] in Whitespace {
        if i < |t| {
          assert s[i] == t[i];
        }
      }
    } else {
      var k := |t| - |Strip(s)|;
      assert t[k] == Strip(s)[0];
      assert s[k] == t[k];
    }
  }

  /** `(x + c).rstrip(c)` is `x` when `x` does not itself end in `c`. */
  lemma RStripOne(x: string, c: char)
    requires x != [] && x[|x| - 1] != c
    ensures RStrip(x + [c], {c}) == x
  {
    assert (x + [c])[..|x|] == x;
  }

  // ---------------------------------------------------------------------
  // Splitting and joining on one character

  /** `sep.join(parts)` for a one-character separator. */
  function Join(parts: seq<string>, sep: char): string
  {
    if |parts| == 0 then []
    else if |parts| == 1 then parts[0]
    else parts[0] + [sep] + Join(parts[1..], sep)
  }

  /** `s.split(sep)` for a one-character separator: the pieces between the
      occurrences of `sep`. */
  function Split(s: string, sep: char): (parts: seq<string>)
    ensures |parts| >= 1
  {
    if s == [] then [[]]
    else
      var rest := Split(s[1..], sep);
      if s[0] == sep then [[]] + rest
      else [[s[0]] + rest[0]] + rest[1..]
  }

  /** There is always at least one piece, no piece holds the separator, and
      joining the pieces back with `sep` gives `s`. */
  lemma {:induction false} SplitPieces(s: string, sep: char)
    ensures var parts := Split(s, sep);
            (forall i :: 0 <= i < |parts| ==> sep !in parts[i]) && Join(parts, sep) == s
    decreases |s|
  {
    if s != [] {
      var rest := Split(s[1..], sep);
      SplitPieces(s[1..], sep);
      var parts := Split(s, sep);
      if s[0] == sep {
        assert parts[1..] == rest;
      } else {
        assert parts[1..] == rest[1..];
        assert s == [s[0]] + s[1..];
      }
    }
  }

  lemma Join3(a: string, b: string, c: string, sep: char)
    ensures Join([a, b, c], sep) == a + [sep] + b + [sep] + c
  {
    assert [a, b, c][1..] == [b, c];
    assert [b, c][1..] == [c];
    assert Join([c], sep) == c;
    assert Join([b, c], sep) == b + [sep] + c;
  }

  /** Joining one more piece adds the separator and the piece at the end. */
  lemma {:induction false} JoinSnoc(parts: seq<string>, x: string, sep: char)
    requires |parts| >= 1
    ensures Join(parts + [x], sep) == Join(parts, sep) + [sep] + x
  {
    if |parts| == 1 {
      assert (parts + [x])[1..] == [x];
    } else {
      assert (parts + [x])[1..] == parts[1..] + [x];
      JoinSnoc(parts[1..], x, sep);
    }
  }

  lemma {:induction false} SplitNoSeparator(a: string, sep: char)
    requires sep !in a
    ensures Split(a, sep) == [a]
  {
    if a != [] {
      SplitNoSeparator(a[1..], sep);
      assert [a[0]] + a[1..] == a;
    }
  }

  lemma {:induction false} SplitAfterPiece(a: string, rest: string, sep: char)
    requires sep !in a
    ensures Split(a + [sep] + rest, sep) == [a] + Split(rest, sep)
  {
    if a == [] {
      assert (a + [sep] + rest)[1..] == rest;
    } else {
      assert (a + [sep] + rest)[1..] == a[1..] + [sep] + rest;
      SplitAfterPiece(a[1..], rest, sep);
      assert [a[0]] + a[1..] == a;
    }
  }

  /** Splitting undoes joining, when no piece contains the separator. */
  lemma {:induction false} SplitJoin(parts: seq<string>, sep: char)
    requires |parts| >= 1
    requires forall i :: 0 <= i < |parts| ==> sep !in parts[i]
    ensures Split(Join(parts, sep), sep) == parts
  {
    if |parts| == 1 {
      SplitNoSeparator(parts[0], sep);
    } else {
      SplitJoin(parts[1..], sep);
      SplitAfterPiece(parts[0], Join(parts[1..], sep), sep);
      assert [parts[0]] + parts[1..] == parts;
    }
  }

  /** Extending a prefix by the next element gives the next prefix. */
  lemma PrefixExtend<T>(s: seq<T>, i: int)
    requires 0 <= i < |s|
    ensures s[..i] + [s[i]] == s[..i + 1]
  {
  }

  // ---------------------------------------------------------------------
  // Case

  function LowerChar(c: char): char
  {
    if 'A' <= c <= 'Z' then (c as int + 32) as char else c
  }

  /** `s.lower()` on ASCII letters. */
  function Lower(s: string): string
  {
    seq(|s|, i requires 0 <= i < |s| => LowerChar(s[i]))
  }

  // ---------------------------------------------------------------------
  // Digits and numerals

  const DigitChars: string := "0123456789abcdef"

  predicate IsDigit(c: char)
  {
    '0' <= c <= '9'
  }

  /** `s.isdigit()`: non-empty and all decimal digits. */
  predicate IsDigits(s: string)
  {
    |s| > 0 && forall i :: 0 <= i < |s| ==> IsDigit(s[i])
  }

  /** The value of one digit character of base 16 or less. */
  function DigitValue(c: char): nat
  {
    if '0' <= c <= '9' then c as int - '0' as int
    else if 'a' <= c <= 'f' then c as int - 'a' as int + 10
    else 0
  }

  /** The value of a string of digits read in `base`. */
  function ValueOf(s: string, base: nat): nat
  {
    if s == [] then 0 else ValueOf(s[..|s| - 1], base) * base + DigitValue(s[|s| - 1])
  }

  /** The shortest numeral of `n` in `base`, with lower-case letters above 9. */
  function Numeral(n: nat, base: nat): (r: string)
    requires 2 <= base <= 16
    ensures |r| >= 1
    ensures forall i :: 0 <= i < |r| ==> r[i] in DigitChars[..base]
  {
    if n < base then [DigitChars[n]]
    else
      var q, d := n / base, n % base;
      DivShrinks(n, base);
      var front := Numeral(q, base);
      assert DigitChars[d] in DigitChars[..base];
      front + [DigitChars[d]]
  }

  lemma DivShrinks(n: nat, base: nat)
    requires 2 <= base && base <= n
    ensures 0 < n / base < n && 0 <= n % base < base
  {
  }

  /** Reading a numeral back gives the number. */
  lemma {:induction false} NumeralValue(n: nat, base: nat)
    requires 2 <= base <= 16
    ensures ValueOf(Numeral(n, base), base) == n
  {
    if n < base {
      SingleDigit(n, base);
    } else {
      NumeralValue(n / base, base);
      LastDigit(n, base);
      DivMod(n, base);
    }
  }

  lemma SingleDigit(n: nat, base: nat)
    requires 2 <= base <= 16 && n < base
    ensures ValueOf(Numeral(n, base), base) == n
  {
    var r := Numeral(n, base);
    DigitCharValue(n);
    assert r[..0] == [];
  }

  /** The last digit of a numeral of two or more digits is `n % base`, and
      the ones before it are the numeral of `n / base`. */
  lemma LastDigit(n: nat, base: nat)
    requires 2 <= base <= 16 && n >= base
    ensures ValueOf(Numeral(n, base), base) == ValueOf(Numeral(n / base, base), base) * base + n % base
  {
    var r := Numeral(n, base);
    var front := Numeral(n / base, base);
    DigitCharValue(n % base);
    assert r[..|r| - 1] == front;
  }

  lemma DivMod(n: nat, base: nat)
    requires base > 0
    ensures (n / base) * base + n % base == n
  {
  }

  lemma DigitCharValue(d: nat)
    requires d < 16
    ensures DigitValue(DigitChars[d]) == d
  {
  }

  /** `str(n)` / `f"{n}"` for an integer. */
  function IntToString(n: int): string
  {
    if n < 0 then "-" + Numeral(-n, 10) else Numeral(n, 10)
  }

  /** `int(s)`: an optional sign followed by one or more decimal digits. */
  function ParseInt(s: string): Option<int>
  {
    if |s| > 0 && (s[0] == '-' || s[0] == '+') then
      if IsDigits(s[1..]) then
        Some(if s[0] == '-' then -(ValueOf(s[1..], 10) as int) else ValueOf(s[1..], 10))
      else None
    else if IsDigits(s) then Some(ValueOf(s, 10))
    else None
  }

  lemma DecimalNumeralIsDigits(n: nat)
    ensures IsDigits(Numeral(n, 10))
  {
    var r := Numeral(n, 10);
    forall i | 0 <= i < |r| ensures IsDigit(r[i]) {
      assert r[i] in DigitChars[..10];
    }
  }

  /** `int(str(n)) == n` */
  lemma ParseIntRoundTrip(n: int)
    ensures ParseInt(IntToString(n)) == Some(n)
  {
    var m := if n < 0 then -n else n;
    DecimalNumeralIsDigits(m);
    NumeralValue(m, 10);
    if n < 0 {
      assert IntToString(n)[1..] == Numeral(m, 10);
    }
  }

  /** The decimal rendering of an integer never holds a character other than
      a digit or a minus sign. */
  lemma IntToStringChars(n: int, c: char)
    requires c != '-' && !IsDigit(c)
    ensures c !in IntToString(n)
  {
    var m := if n < 0 then -n else n;
    DecimalNumeralIsDigits(m);
    if n < 0 {
      assert IntToString(n) == ['-'] + Numeral(m, 10);
    }
  }

  /** `f"{n:02x}"`: hexadecimal, lower case, padded with zeros after the sign
      to at least two characters. */
  function Hex2(n: int): string
  {
    if n < 0 then "-" + Numeral(-n, 16)
    else if n < 16 then "0" + Numeral(n, 16)
    else Numeral(n, 16)
  }

  /** A non-negative number renders in hexadecimal digits only. */
  lemma Hex2Digits(n: int)
    requires 0 <= n
    ensures forall i :: 0 <= i < |Hex2(n)| ==> Hex2(n)[i] in DigitChars
  {
    assert DigitChars[..16] == DigitChars;
  }

  /** A byte renders as exactly two hexadecimal digits that read back as it. */
  lemma Hex2Byte(n: int)
    requires 0 <= n <= 255
    ensures |Hex2(n)| == 2
    ensures ValueOf(Hex2(n), 16) == n
    ensures forall i :: 0 <= i < |Hex2(n)| ==> Hex2(n)[i] in DigitChars
  {
    Hex2Digits(n);
    NumeralValue(n, 16);
    var r := Hex2(n);
    if n < 16 {
      assert r[..1] == "0";
      assert r[..0] == [];
    } else {
      assert Numeral(n / 16, 16) == [DigitChars[n / 16]];
      assert r[..1] == [DigitChars[n / 16]];
      assert r[..0] == [];
    }
  }
}
