/** String operations the converter relies on: `str::split` on a character,
    `str::replace`, `i32::from_str` and decimal rendering of integers. */
module Text {
  import opened Common

  /** `s.split(sep)`: the pieces between separators, including empty ones. */
  function Split(s: string, sep: char): (parts: seq<string>)
    ensures |parts| >= 1
    ensures forall k :: 0 <= k < |parts| ==> sep !in parts[k]
    ensures Join(parts, sep) == s
  {
    if |s| == 0 then [""]
    else
      var rest := Split(s[1..], sep);
      if s[0] == sep then [""] + rest
      else [[s[0]] + rest[0]] + rest[1..]
  }

  /** The inverse of Split: the parts with one separator between neighbours. */
  function Join(parts: seq<string>, sep: char): string
    requires |parts| >= 1
  {
    if |parts| == 1 then parts[0] else parts[0] + [sep] + Join(parts[1..], sep)
  }

  /** Splitting a joined sequence of separator-free parts gives the parts back. */
  lemma {:induction false} SplitJoin(parts: seq<string>, sep: char)
    requires |parts| >= 1
    requires forall k :: 0 <= k < |parts| ==> sep !in parts[k]
    ensures Split(Join(parts, sep), sep) == parts
  {
    if |parts| == 1 {
      SplitNoSep(parts[0], sep);
    } else {
      SplitJoin(parts[1..], sep);
      SplitPrefix(parts[0], Join(parts[1..], sep), sep);
    }
  }

  lemma {:induction false} SplitNoSep(s: string, sep: char)
    requires sep !in s
    ensures Split(s, sep) == [s]
  {
    if |s| > 0 {
      SplitNoSep(s[1..], sep);
    }
  }

  lemma {:induction false} SplitPrefix(p: string, rest: string, sep: char)
    requires sep !in p
    ensures Split(p + [sep] + rest, sep) == [p] + Split(rest, sep)
  {
    if |p| == 0 {
      assert p + [sep] + rest == [sep] + rest;
      assert ([sep] + rest)[1..] == rest;
    } else {
      assert (p + [sep] + rest)[1..] == p[1..] + [sep] + rest;
      SplitPrefix(p[1..], rest, sep);
      assert [p[0]] + p[1..] == p;
    }
  }

  /** `s.replace(from, to)`: every non-overlapping occurrence of `from`,
      scanning left to right, is replaced by `to`. */
  function ReplaceAll(s: string, from: string, to: string): string
    requires |from| > 0
  {
    if |s| < |from| then s
    else if s[..|from|] == from then to + ReplaceAll(s[|from|..], from, to)
    else [s[0]] + ReplaceAll(s[1..], from, to)
  }

  /** A string that does not contain `from` is left unchanged. */
  lemma {:induction false} ReplaceAbsent(s: string, from: string, to: string)
    requires |from| > 0
    requires from[0] !in s
    ensures ReplaceAll(s, from, to) == s
  {
    if |s| >= |from| {
      assert s[0] != from[0];
      assert s[..|from|] != from;
      ReplaceAbsent(s[1..], from, to);
    }
  }

  /** Characters before the first occurrence are copied unchanged. */
  lemma {:induction false} ReplaceAfterPlain(p: string, rest: string, from: string, to: string)
    requires |from| > 0
    requires from[0] !in p
    ensures ReplaceAll(p + rest, from, to) == p + ReplaceAll(rest, from, to)
  {
    if |p| > 0 {
      var s := p + rest;
      assert s[0] == p[0] && s[0] != from[0];
      assert |s| >= |from| ==> s[..|from|] != from;
      assert s[1..] == p[1..] + rest;
      ReplaceAfterPlain(p[1..], rest, from, to);
      if |s| >= |from| {
        calc {
          ReplaceAll(s, from, to);
          [p[0]] + ReplaceAll(p[1..] + rest, from, to);
          [p[0]] + (p[1..] + ReplaceAll(rest, from, to));
          { assert [p[0]] + p[1..] == p; }
          p + ReplaceAll(rest, from, to);
        }
      } else {
        assert |rest| < |from|;
      }
    } else {
      assert p + rest == rest;
    }
  }

  // ---------------------------------------------------------------------
  // Decimal integers

  predicate IsDigit(c: char) { '0' <= c <= '9' }

  predicate AllDigits(s: string) { forall k :: 0 <= k < |s| ==> IsDigit(s[k]) }

  function DigitsValue(s: string): nat
    requires AllDigits(s)
  {
    if |s| == 0 then 0 else DigitsValue(s[..|s| - 1]) * 10 + (s[|s| - 1] as int - '0' as int)
  }

  /** `i32::from_str`: an optional '+' or '-' followed by one or more ASCII
      digits, whose value fits in 32-bit two's complement. */
  function ParseI32(s: string): (r: Option<i32>)
    ensures r.Some? ==> |s| > 0
  {
    var neg := |s| > 0 && s[0] == '-';
    var digits := if |s| > 0 && (s[0] == '-' || s[0] == '+') then s[1..] else s;
    if |digits| == 0 || !AllDigits(digits) then None
    else
      var d: int := DigitsValue(digits);
      var v := if neg then -d else d;
      if -0x8000_0000 <= v < 0x8000_0000 then Some(v) else None
  }

  function DigitChar(d: nat): (c: char)
    requires d < 10
    ensures IsDigit(c)
  {
    ('0' as int + d) as char
  }

  /** Decimal rendering of a natural number (Rust's `{}` for unsigned values). */
  function ShowNat(n: nat): (s: string)
    ensures |s| >= 1 && AllDigits(s)
  {
    if n < 10 then [DigitChar(n)] else ShowNat(n / 10) + [DigitChar(n % 10)]
  }

  /** Decimal rendering of an integer, with a leading '-' when negative. */
  function ShowInt(n: int): (s: string)
    ensures |s| >= 1
    ensures forall k :: 0 <= k < |s| ==> IsDigit(s[k]) || s[k] == '-'
  {
    if n < 0 then "-" + ShowNat(-n) else ShowNat(n)
  }

  lemma {:induction false} ShowNatValue(n: nat)
    ensures DigitsValue(ShowNat(n)) == n
  {
    if n >= 10 {
      var s := ShowNat(n);
      assert s[..|s| - 1] == ShowNat(n / 10);
      ShowNatValue(n / 10);
    }
  }

  /** Parsing a rendered 32-bit integer gives the integer back. */
  lemma ParseShowI32(n: i32)
    ensures ParseI32(ShowInt(n)) == Some(n)
  {
    var k: int := n;
    var s := ShowInt(n);
    if k < 0 {
      var m: nat := -k;
      ShowNatValue(m);
      assert s == "-" + ShowNat(m);
      assert s[0] == '-';
      assert s[1..] == ShowNat(m);
    } else {
      var m: nat := k;
      ShowNatValue(m);
      assert s == ShowNat(m);
      assert IsDigit(s[0]);
    }
  }
}
