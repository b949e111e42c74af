/** The pieces of Python's `str` and `int` behaviour that the bot's parsers
    and post-log keys rely on: `strip`, `lower`, `split`, `int(str)` and
    decimal rendering, on strings as sequences of characters. */
module Text {
  import opened Wrappers

  /** A character that `str.strip()` removes (the Latin-1 part of Python's
      whitespace class). */
  predicate IsSpace(c: char)
  {
    c == ' ' || ('\U{9}' <= c <= '\U{D}') || ('\U{1C}' <= c <= '\U{1F}') || c == '\U{85}' || c == '\U{A0}'
  }

  function StripLeft(s: string): (r: string)
    ensures |r| <= |s| && r == s[|s| - |r|..]
    ensures r == [] || !IsSpace(r[0])
    ensures forall i :: 0 <= i < |s| - |r| ==> IsSpace(s[i])
  {
    if |s| > 0 && IsSpace(s[0]) then StripLeft(s[1..]) else s
  }

  function StripRight(s: string): (r: string)
    ensures |r| <= |s| && r == s[..|r|]
    ensures r == [] || !IsSpace(r[|r| - 1])
    ensures forall i :: |r| <= i < |s| ==> IsSpace(s[i])
  {
    if |s| > 0 && IsSpace(s[|s| - 1]) then StripRight(s[..|s| - 1]) else s
  }

  /** `s.strip()`: the longest infix of `s` that neither starts nor ends with
      whitespace, everything cut away being whitespace. */
  function Strip(s: string): (r: string)
    ensures |r| <= |s|
    ensures r == [] || (!IsSpace(r[0]) && !IsSpace(r[|r| - 1]))
  {
    StripRight(StripLeft(s))
  }

  lemma StripUnpadded(s: string)
    requires s == [] || (!IsSpace(s[0]) && !IsSpace(s[|s| - 1]))
    ensures Strip(s) == s
  {
  }

  predicate IsUpper(c: char) { 'A' <= c <= 'Z' }

  function LowerChar(c: char): (d: char)
    ensures IsUpper(c) ==> d as int == c as int + 32
    ensures !IsUpper(c) ==> d == c
  {
    if IsUpper(c) then (c as int + 32) as char else c
  }

  /** `s.lower()` on the ASCII letters. */
  function Lower(s: string): (r: string)
    ensures |r| == |s| && forall i :: 0 <= i < |s| ==> r[i] == LowerChar(s[i])
  {
    seq(|s|, i requires 0 <= i < |s| => LowerChar(s[i]))
  }

  /** `(" " + s + " ").strip() == s` for an unpadded `s`. */
  lemma StripSpaces(s: string)
    requires s != [] && !IsSpace(s[0]) && !IsSpace(s[|s| - 1])
    ensures Strip([' '] + s + [' ']) == s
  {
    var p := [' '] + s + [' '];
    assert p[1..] == s + [' '];
    assert StripLeft(p) == StripLeft(s + [' ']) == s + [' '];
    assert (s + [' '])[..|s|] == s;
  }

  lemma LowerIdempotent(s: string)
    ensures Lower(Lower(s)) == Lower(s)
  {
  }

  lemma LowerCharSpace(c: char)
    ensures IsSpace(LowerChar(c)) == IsSpace(c)
  {
  }

  lemma {:induction false} StripLeftLower(s: string)
    ensures StripLeft(Lower(s)) == Lower(StripLeft(s))
  {
    if |s| > 0 {
      var ls := Lower(s);
      LowerCharSpace(s[0]);
      assert ls[0] == LowerChar(s[0]);
      if IsSpace(s[0]) {
        assert ls[1..] == Lower(s[1..]);
        StripLeftLower(s[1..]);
      }
    }
  }

  lemma {:induction false} StripRightLower(s: string)
    ensures StripRight(Lower(s)) == Lower(StripRight(s))
  {
    if |s| > 0 {
      var ls := Lower(s);
      var n := |s| - 1;
      LowerCharSpace(s[n]);
      assert IsSpace(ls[n]) == IsSpace(s[n]);
      if IsSpace(s[n]) {
        assert ls[..n] == Lower(s[..n]);
        assert StripRight(ls) == StripRight(ls[..n]);
        assert StripRight(s) == StripRight(s[..n]);
        StripRightLower(s[..n]);
      } else {
        assert StripRight(ls) == ls;
        assert StripRight(s) == s;
      }
    }
  }

  /** `s.lower().strip() == s.strip().lower()`: lowering never makes or
      unmakes whitespace. */
  lemma StripLower(s: string)
    ensures Strip(Lower(s)) == Lower(Strip(s))
  {
    StripLeftLower(s);
    StripRightLower(StripLeft(s));
  }

  /** Inverse of `Split`: the pieces glued back together with the separator. */
  function Join(parts: seq<string>, sep: char): string
    requires |parts| >= 1
  {
    if |parts| == 1 then parts[0] else parts[0] + [sep] + Join(parts[1..], sep)
  }

  /** `s.split(sep)`: the pieces between separators, at least one, none of
      them holding the separator, and joined they give back `s`. */
  function Split(s: string, sep: char): (parts: seq<string>)
    ensures |parts| >= 1
    ensures forall k :: 0 <= k < |parts| ==> sep !in parts[k]
    ensures Join(parts, sep) == s
  {
    if |s| == 0 then [""]
    else
      var rest := Split(s[1..], sep);
      if s[0] == sep then
        assert Join([""] + rest, sep) == [sep] + Join(rest, sep) by {
          assert ([""] + rest)[1..] == rest;
        }
        [""] + rest
      else
        var parts := [[s[0]] + rest[0]] + rest[1..];
        assert Join(parts, sep) == [s[0]] + Join(rest, sep) by {
          if |rest| > 1 {
            assert parts[1..] == rest[1..];
          }
        }
        assert sep !in parts[0];
        parts
  }

  lemma {:induction false} SplitWithoutSeparator(s: string, sep: char)
    requires sep !in s
    ensures Split(s, sep) == [s]
  {
    if |s| > 0 {
      SplitWithoutSeparator(s[1..], sep);
    }
  }

  lemma {:induction false} SplitAtSeparator(a: string, sep: char, b: string)
    requires sep !in a
    ensures Split(a + [sep] + b, sep) == [a] + Split(b, sep)
  {
    if |a| == 0 {
      assert (a + [sep] + b)[1..] == b;
    } else {
      assert (a + [sep] + b)[1..] == a[1..] + [sep] + b;
      SplitAtSeparator(a[1..], sep, b);
      assert [a[0]] + a[1..] == a;
    }
  }

  /** `[p.lower() for p in parts]` */
  function LowerAll(ts: seq<string>): (r: seq<string>)
    ensures |r| == |ts| && forall i :: 0 <= i < |ts| ==> r[i] == Lower(ts[i])
  {
    seq(|ts|, i requires 0 <= i < |ts| => Lower(ts[i]))
  }

  lemma LowerAllAppend(a: seq<string>, b: seq<string>)
    ensures LowerAll(a + b) == LowerAll(a) + LowerAll(b)
  {
  }

  lemma SplitHead(s: string, sep: char)
    requires |s| > 0
    ensures s[0] == sep ==> Split(s, sep) == [""] + Split(s[1..], sep)
    ensures s[0] != sep ==>
      Split(s, sep) == [[s[0]] + Split(s[1..], sep)[0]] + Split(s[1..], sep)[1..]
  {
  }

  lemma LowerAllCons(c: char, rest: seq<string>)
    requires |rest| > 0
    ensures LowerAll([[c] + rest[0]] + rest[1..])
         == [[LowerChar(c)] + LowerAll(rest)[0]] + LowerAll(rest)[1..]
  {
    assert Lower([c] + rest[0]) == [LowerChar(c)] + Lower(rest[0]);
  }

  /** Lowering and splitting at a character that is not a letter commute. */
  lemma {:induction false} SplitLower(s: string, sep: char)
    requires !IsUpper(sep) && !('a' <= sep <= 'z')
    ensures Split(Lower(s), sep) == LowerAll(Split(s, sep))
  {
    if |s| > 0 {
      var ls := Lower(s);
      assert ls[0] == LowerChar(s[0]);
      assert ls[0] == sep <==> s[0] == sep;
      assert ls[1..] == Lower(s[1..]);
      SplitLower(s[1..], sep);
      SplitHead(s, sep);
      SplitHead(ls, sep);
      if s[0] != sep {
        LowerAllCons(s[0], Split(s[1..], sep));
      } else {
        assert LowerAll([""] + Split(s[1..], sep)) == [""] + LowerAll(Split(s[1..], sep));
      }
    }
  }

  lemma SplitPair(a: string, sep: char, b: string)
    requires sep !in a && sep !in b
    ensures Split(a + [sep] + b, sep) == [a, b]
  {
    SplitAtSeparator(a, sep, b);
    SplitWithoutSeparator(b, sep);
  }

  predicate IsDigit(c: char) { '0' <= c <= '9' }

  function DigitValue(c: char): (n: nat)
    requires IsDigit(c)
    ensures n < 10
  {
    c as int - '0' as int
  }

  function DigitChar(n: nat): (c: char)
    requires n < 10
    ensures IsDigit(c) && DigitValue(c) == n
  {
    ('0' as int + n) as char
  }

  predicate DigitsOrUnderscores(s: string)
  {
    forall i :: 0 <= i < |s| ==> IsDigit(s[i]) || s[i] == '_'
  }

  /** The digit part that `int(str)` accepts in base 10: digits, with single
      underscores allowed between two digits. */
  predicate IsDigitRun(s: string)
  {
    && |s| > 0
    && IsDigit(s[0]) && IsDigit(s[|s| - 1])
    && DigitsOrUnderscores(s)
    && forall i :: 0 <= i < |s| - 1 && s[i] == '_' ==> s[i + 1] != '_'
  }

  /** The value of a digit run, underscores skipped. */
  function DigitsValue(s: string): nat
    requires DigitsOrUnderscores(s)
  {
    if |s| == 0 then 0
    else if s[|s| - 1] == '_' then DigitsValue(s[..|s| - 1])
    else DigitsValue(s[..|s| - 1]) * 10 + DigitValue(s[|s| - 1])
  }

  /** Python's `int(s)` for a string: surrounding whitespace, an optional
      sign, then a digit run; `None` stands for the `ValueError` it raises. */
  function ParseInt(s: string): Option<int>
  {
    var t := Strip(s);
    if |t| > 0 && (t[0] == '-' || t[0] == '+') then
      if IsDigitRun(t[1..]) then
        var v: int := DigitsValue(t[1..]);
        Some(if t[0] == '-' then -v else v)
      else None
    else if IsDigitRun(t) then Some(DigitsValue(t))
    else None
  }

  /** `str(n)` for a natural number: decimal digits without leading zeros. */
  function NatToString(n: nat): (s: string)
    ensures |s| > 0 && (forall i :: 0 <= i < |s| ==> IsDigit(s[i]))
    ensures s[0] != '0' || s == "0"
    ensures DigitsValue(s) == n
  {
    if n < 10 then [DigitChar(n)]
    else
      var s := NatToString(n / 10) + [DigitChar(n % 10)];
      assert s[..|s| - 1] == NatToString(n / 10);
      s
  }

  /** `str(i)` for an integer. */
  function IntToString(i: int): (s: string)
    ensures |s| > 0 && '_' !in s && ':' !in s && ',' !in s
    ensures !IsSpace(s[0]) && !IsSpace(s[|s| - 1])
  {
    if i < 0 then "-" + NatToString(-i) else NatToString(i)
  }

  lemma DigitsAreARun(s: string)
    requires |s| > 0 && forall i :: 0 <= i < |s| ==> IsDigit(s[i])
    ensures IsDigitRun(s)
  {
  }

  /** `int(str(i)) == i`. */
  lemma IntToStringRoundTrip(i: int)
    ensures ParseInt(IntToString(i)) == Some(i)
  {
    var s := IntToString(i);
    StripUnpadded(s);
    if i < 0 {
      assert s[1..] == NatToString(-i);
      DigitsAreARun(s[1..]);
    } else {
      DigitsAreARun(s);
    }
  }

  lemma IntToStringInjective(i: int, j: int)
    requires IntToString(i) == IntToString(j)
    ensures i == j
  {
    IntToStringRoundTrip(i);
    IntToStringRoundTrip(j);
  }

  /** `f"{n:02d}"` for 0 <= n < 100. */
  function Pad2(n: nat): (s: string)
    requires n < 100
    ensures |s| == 2 && IsDigit(s[0]) && IsDigit(s[1])
  {
    [DigitChar(n / 10), DigitChar(n % 10)]
  }

  lemma Pad2RoundTrip(n: nat)
    requires n < 100
    ensures ParseInt(Pad2(n)) == Some(n)
  {
    var s := Pad2(n);
    StripUnpadded(s);
    DigitsAreARun(s);
    assert s[..1][..0] == [];
    assert DigitsValue(s[..1]) == n / 10;
  }

  /** Python's `sub in s` for strings. */
  predicate Contains(s: string, sub: string)
  {
    exists i :: 0 <= i <= |s| && OccursAt(s, sub, i)
  }

  predicate OccursAt(s: string, sub: string, i: nat)
  {
    i + |sub| <= |s| && s[i..i + |sub|] == sub
  }
}
