/** The Python string operations the integration relies on: str.strip(), str.strip(c),
    str.split(sep), str.replace(c, ""), str(n) for an int and int(text, base). */
module PyText {
  import opened Bytes

  /** str.isspace() for one character: the characters str.strip() removes. */
  predicate IsSpace(c: char)
  {
    || c == ' ' || ('\t' <= c <= '\r') || ('\U{1C}' <= c <= '\U{1F}')
    || c == '\U{85}' || c == '\U{A0}' || c == '\U{1680}' || ('\U{2000}' <= c <= '\U{200A}')
    || c == '\U{2028}' || c == '\U{2029}' || c == '\U{202F}' || c == '\U{205F}' || c == '\U{3000}'
  }

  /** Drops the longest prefix whose characters satisfy drop. */
  function TrimStart(s: string, drop: char -> bool): (r: string)
    ensures |r| <= |s| && r == s[|s| - |r|..]
    ensures r == [] || !drop(r[0])
    ensures forall i :: 0 <= i < |s| - |r| ==> drop(s[i])
  {
    if s != [] && drop(s[0]) then TrimStart(s[1..], drop) else s
  }

  /** Drops the longest suffix whose characters satisfy drop. */
  function TrimEnd(s: string, drop: char -> bool): (r: string)
    ensures |r| <= |s| && r == s[..|r|]
    ensures r == [] || !drop(r[|r| - 1])
    ensures forall i :: |r| <= i < |s| ==> drop(s[i])
  {
    if s != [] && drop(s[|s| - 1]) then TrimEnd(s[..|s| - 1], drop) else s
  }

  /** str.strip(): no leading or trailing whitespace. */
  function Strip(s: string): string
  {
    TrimEnd(TrimStart(s, IsSpace), IsSpace)
  }

  /** str.strip(c) for a single character c. */
  function StripChar(s: string, c: char): string
  {
    TrimEnd(TrimStart(s, x => x == c), x => x == c)
  }

  /** A text that neither starts nor ends with a character satisfying drop is its own trim. */
  lemma TrimmedAlready(s: string, drop: char -> bool)
    requires s == [] || (!drop(s[0]) && !drop(s[|s| - 1]))
    ensures TrimEnd(TrimStart(s, drop), drop) == s
  {
  }

  /** str.replace(c, ""): every occurrence of c removed, every other character kept in order. */
  function RemoveChar(s: string, c: char): (r: string)
    ensures c !in r
    ensures c !in s ==> r == s
    ensures |r| <= |s|
  {
    if s == [] then []
    else (if s[0] == c then [] else [s[0]]) + RemoveChar(s[1..], c)
  }

  /** Removing c from one character drops it when it is c and keeps it otherwise. */
  lemma RemoveCharOne(x: char, c: char)
    ensures RemoveChar([x], c) == if x == c then [] else [x]
  {
    assert [x][1..] == [];
  }

  /** Removing c from a concatenation removes it from each part, so the characters other
      than c are kept, in their order. */
  lemma {:induction false} RemoveCharAppend(a: string, b: string, c: char)
    ensures RemoveChar(a + b, c) == RemoveChar(a, c) + RemoveChar(b, c)
  {
    if a != [] {
      assert (a + b)[0] == a[0] && (a + b)[1..] == a[1..] + b;
      RemoveCharAppend(a[1..], b, c);
    } else {
      assert a + b == b;
    }
  }

  /** The inverse of split: the fields with sep between them. */
  function Join(parts: seq<string>, sep: char): string
    requires |parts| >= 1
  {
    if |parts| == 1 then parts[0] else parts[0] + [sep] + Join(parts[1..], sep)
  }

  /** str.split(sep) for a one-character separator: at least one field, no field holds sep,
      and joining the fields with sep gives the text back. */
  function Split(s: string, sep: char): (r: seq<string>)
    ensures |r| >= 1
    ensures forall i :: 0 <= i < |r| ==> sep !in r[i]
    ensures Join(r, sep) == s
  {
    if s == [] then [[]]
    else if s[0] == sep then
      var rest := Split(s[1..], sep);
      assert Join([[]] + rest, sep) == [sep] + Join(rest, sep) by {
        assert ([[]] + rest)[1..] == rest;
      }
      [[]] + rest
    else
      var rest := Split(s[1..], sep);
      var r := [[s[0]] + rest[0]] + rest[1..];
      assert Join(r, sep) == [s[0]] + Join(rest, sep) by {
        if |rest| > 1 {
          assert r[1..] == rest[1..];
        }
      }
      assert [s[0]] + s[1..] == s;
      r
  }

  /** Splitting fields joined by sep gives the fields back when none of them holds sep. */
  lemma {:induction false} SplitJoin(parts: seq<string>, sep: char)
    requires |parts| >= 1
    requires forall i :: 0 <= i < |parts| ==> sep !in parts[i]
    ensures Split(Join(parts, sep), sep) == parts
  {
    if |parts| == 1 {
      SplitNoSep(parts[0], sep);
    } else {
      SplitJoin(parts[1..], sep);
      SplitPrefix(parts[0], Join(parts[1..], sep), sep);
      assert parts == [parts[0]] + parts[1..];
    }
  }

  lemma {:induction false} SplitNoSep(s: string, sep: char)
    requires sep !in s
    ensures Split(s, sep) == [s]
  {
    if s != [] {
      SplitNoSep(s[1..], sep);
    }
  }

  lemma {:induction false} SplitPrefix(p: string, rest: string, sep: char)
    requires sep !in p
    ensures Split(p + [sep] + rest, sep) == [p] + Split(rest, sep)
  {
    if p == [] {
      assert p + [sep] + rest == [sep] + rest;
      assert ([sep] + rest)[1..] == rest;
    } else {
      var s := p + [sep] + rest;
      assert s[0] == p[0] && s[1..] == p[1..] + [sep] + rest;
      SplitPrefix(p[1..], rest, sep);
      var tail := Split(s[1..], sep);
      assert tail[0] == p[1..] && tail[1..] == Split(rest, sep);
      assert [p[0]] + p[1..] == p;
    }
  }

  /** Value of a character as a digit of base up to 16; 99 for anything else. */
  function DigitValue(c: char): nat
  {
    if '0' <= c <= '9' then c as int - '0' as int
    else if 'a' <= c <= 'f' then c as int - 'a' as int + 10
    else if 'A' <= c <= 'F' then c as int - 'A' as int + 10
    else 99
  }

  /** Digits of base, with single underscores allowed between digits (int()'s grammar). */
  predicate IsDigitRun(s: string, base: nat)
  {
    && |s| > 0 && s[0] != '_' && s[|s| - 1] != '_'
    && (forall i :: 0 <= i < |s| ==> s[i] == '_' || DigitValue(s[i]) < base)
    && (forall i :: 0 <= i < |s| - 1 ==> s[i] == '_' ==> s[i + 1] != '_')
  }

  /** The value of a digit run, underscores ignored. */
  function RunValue(s: string, base: nat): nat
  {
    if s == [] then 0
    else if s[|s| - 1] == '_' then RunValue(s[..|s| - 1], base)
    else
      var d := DigitValue(s[|s| - 1]);
      RunValue(s[..|s| - 1], base) * base + (if d < base then d else 0)
  }

  /** Python's int(text, base) for base 10 or 16; None stands for the ValueError.
      Surrounding whitespace and one sign are allowed; base 16 also takes a 0x / 0X prefix,
      which may be followed by one underscore. */
  function ParseInt(text: string, base: nat): Option<int>
    requires base == 10 || base == 16
  {
    ParseSigned(Strip(text), base)
  }

  function ParseSigned(t: string, base: nat): Option<int>
    requires base == 10 || base == 16
  {
    if |t| > 0 && t[0] == '-' then
      match ParseMagnitude(t[1..], base)
      case None => None
      case Some(m) => Some(-(m as int))
    else if |t| > 0 && t[0] == '+' then ParseMagnitude(t[1..], base)
    else ParseMagnitude(t, base)
  }

  function ParseMagnitude(body: string, base: nat): Option<nat>
    requires base == 10 || base == 16
  {
    var digits :=
      if base == 16 && |body| >= 2 && body[0] == '0' && (body[1] == 'x' || body[1] == 'X') then
        (if |body| > 2 && body[2] == '_' then body[3..] else body[2..])
      else body;
    if IsDigitRun(digits, base) then Some(RunValue(digits, base)) else None
  }

  function DigitChar(d: nat): (c: char)
    requires d < 10
    ensures '0' <= c <= '9' && DigitValue(c) == d
  {
    ('0' as int + d) as char
  }

  /** str(n) for n >= 0: decimal digits, no leading zero. */
  function NatString(n: nat): (r: string)
    ensures |r| >= 1
    ensures forall i :: 0 <= i < |r| ==> '0' <= r[i] <= '9'
    ensures |r| > 1 ==> r[0] != '0'
  {
    if n < 10 then [DigitChar(n)] else NatString(n / 10) + [DigitChar(n % 10)]
  }

  /** str(n) for any int n. */
  function DecimalString(n: int): (r: string)
    ensures |r| >= 1
  {
    if n < 0 then "-" + NatString(-n) else NatString(n)
  }

  lemma {:induction false} NatStringValue(n: nat)
    ensures RunValue(NatString(n), 10) == n
  {
    if n >= 10 {
      var s := NatString(n);
      assert s[..|s| - 1] == NatString(n / 10);
      NatStringValue(n / 10);
    }
  }

  lemma StripDecimalString(n: int)
    ensures Strip(DecimalString(n)) == DecimalString(n)
  {
    var s := DecimalString(n);
    assert s[0] == '-' || '0' <= s[0] <= '9';
    assert '0' <= s[|s| - 1] <= '9';
    TrimmedAlready(s, IsSpace);
  }

  lemma MagnitudeOfNatString(m: nat)
    ensures ParseMagnitude(NatString(m), 10) == Some(m)
  {
    var digits := NatString(m);
    assert forall i :: 0 <= i < |digits| ==> DigitValue(digits[i]) < 10;
    assert IsDigitRun(digits, 10);
    NatStringValue(m);
  }

  lemma SignedOfDecimalString(n: int)
    ensures ParseSigned(DecimalString(n), 10) == Some(n)
  {
    var s := DecimalString(n);
    var m: nat := if n < 0 then -n else n;
    MagnitudeOfNatString(m);
    if n < 0 {
      assert s[0] == '-' && s[1..] == NatString(m);
    } else {
      assert s == NatString(m);
      assert '0' <= s[0] <= '9';
    }
  }

  /** int(str(n)) == n. */
  lemma ParseDecimalString(n: int)
    ensures ParseInt(DecimalString(n), 10) == Some(n)
  {
    StripDecimalString(n);
    SignedOfDecimalString(n);
  }

  function HexDigit(d: nat): (c: char)
    requires d < 16
    ensures DigitValue(c) == d
  {
    if d < 10 then ('0' as int + d) as char else ('a' as int + d - 10) as char
  }

  /** hex(n) without its "0x" prefix, for n >= 0: lower-case hexadecimal digits, no
      leading zero. */
  function HexString(n: nat): (r: string)
    ensures |r| >= 1
    ensures forall i :: 0 <= i < |r| ==> DigitValue(r[i]) < 16
    ensures |r| > 1 ==> r[0] != '0'
  {
    if n < 16 then [HexDigit(n)] else HexString(n / 16) + [HexDigit(n % 16)]
  }

  lemma {:induction false} HexStringValue(n: nat)
    ensures RunValue(HexString(n), 16) == n
  {
    if n >= 16 {
      var s := HexString(n);
      assert s[..|s| - 1] == HexString(n / 16);
      HexStringValue(n / 16);
    }
  }

  lemma HexStringRun(n: nat)
    ensures ParseMagnitude(HexString(n), 16) == Some(n)
  {
    var h := HexString(n);
    assert IsDigitRun(h, 16);
    HexStringValue(n);
  }

  /** int(text, 16) reads back every number printed in hexadecimal, with or without the
      "0x" prefix. */
  lemma ParseHexString(n: nat)
    ensures ParseInt(HexString(n), 16) == Some(n)
    ensures ParseInt("0x" + HexString(n), 16) == Some(n)
  {
    HexStringRun(n);
    HexBare(HexString(n));
    HexPrefixed(HexString(n));
  }

  lemma HexBare(h: string)
    requires |h| >= 1 && DigitValue(h[0]) < 16 && DigitValue(h[|h| - 1]) < 16
    ensures ParseInt(h, 16) == ParseMagnitude(h, 16)
  {
    DigitNotSign(h[0]);
    DigitNotSign(h[|h| - 1]);
    assert Strip(h) == h by {
      TrimmedAlready(h, IsSpace);
    }
    assert h[0] != '-' && h[0] != '+';
  }

  lemma HexPrefixed(h: string)
    requires |h| >= 1 && DigitValue(h[0]) < 16 && DigitValue(h[|h| - 1]) < 16
    ensures ParseInt("0x" + h, 16) == if IsDigitRun(h, 16) then Some(RunValue(h, 16)) else None
  {
    DigitNotSign(h[0]);
    DigitNotSign(h[|h| - 1]);
    PrefixStripped(h);
    PrefixDigits(h);
  }

  lemma PrefixStripped(h: string)
    requires |h| >= 1 && !IsSpace(h[|h| - 1])
    ensures Strip("0x" + h) == "0x" + h
  {
    var p := "0x" + h;
    assert p[0] == '0' && p[|p| - 1] == h[|h| - 1];
    TrimmedAlready(p, IsSpace);
  }

  lemma PrefixDigits(h: string)
    requires |h| >= 1 && h[0] != '_'
    ensures ParseSigned("0x" + h, 16) == if IsDigitRun(h, 16) then Some(RunValue(h, 16)) else None
  {
    var p := "0x" + h;
    assert p[0] == '0' && p[1] == 'x' && p[2] == h[0];
    assert p[2..] == h;
  }

  /** A digit is neither whitespace, a sign nor an underscore. */
  lemma DigitNotSign(c: char)
    requires DigitValue(c) < 16
    ensures !IsSpace(c) && c != '-' && c != '+' && c != '_'
  {
  }

  /** Decimal strings of different numbers differ. */
  lemma DecimalStringInjective(a: int, b: int)
    requires DecimalString(a) == DecimalString(b)
    ensures a == b
  {
    ParseDecimalString(a);
    ParseDecimalString(b);
  }
}
