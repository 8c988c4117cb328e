/**
 * The few Python string operations the core relies on: `str.split` with a
 * one-character separator, `str.join`, `str.rstrip()`, `str(n)` / `format(n)`
 * for integers and `int(s)` on a decimal literal.
 */
module Strings {
  import opened Wrappers

  /** `s.split(sep)`: always at least one piece; pieces never contain `sep`. */
  function Split(s: string, sep: char): (r: seq<string>)
    ensures |r| >= 1
    ensures forall k :: 0 <= k < |r| ==> sep !in r[k]
    decreases |s|
  {
    if |s| == 0 then [""]
    else
      var rest := Split(s[1..], sep);
      if s[0] == sep then [""] + rest
      else [[s[0]] + rest[0]] + rest[1..]
  }

  /** `sep.join(parts)`. */
  function Join(parts: seq<string>, sep: char): string
    decreases |parts|
  {
    if |parts| == 0 then ""
    else if |parts| == 1 then parts[0]
    else parts[0] + [sep] + Join(parts[1..], sep)
  }

  /** Joining the pieces of a split with the same separator gives back the string. */
  lemma {:induction false} JoinSplit(s: string, sep: char)
    ensures Join(Split(s, sep), sep) == s
    decreases |s|
  {
    if |s| > 0 {
      JoinSplit(s[1..], sep);
      var rest := Split(s[1..], sep);
      if s[0] == sep {
        assert Split(s, sep) == [""] + rest;
        assert s == [sep] + s[1..];
      } else {
        var r := Split(s, sep);
        assert r == [[s[0]] + rest[0]] + rest[1..];
        if |rest| == 1 {
          assert s == [s[0]] + rest[0];
        } else {
          assert r[1..] == rest[1..];
          assert Join(rest, sep) == rest[0] + [sep] + Join(rest[1..], sep);
          assert s == [s[0]] + s[1..];
        }
      }
    }
  }

  /** Splitting the join of pieces free of `sep` gives back the pieces. */
  lemma {:induction false} SplitJoin(parts: seq<string>, sep: char)
    requires |parts| >= 1
    requires forall k :: 0 <= k < |parts| ==> sep !in parts[k]
    ensures Split(Join(parts, sep), sep) == parts
    decreases |parts|, |parts[0]|
  {
    if |parts[0]| > 0 {
      var p := parts[0];
      var tail := [p[1..]] + parts[1..];
      assert forall k :: 0 <= k < |tail| ==> sep !in tail[k] by {
        assert forall c :: c in p[1..] ==> c in p;
      }
      SplitJoin(tail, sep);
      JoinHeadCons(parts, sep);
      assert p[0] != sep;
      SplitCons(p[0], Join(tail, sep), sep);
      assert [p[0]] + tail[0] == p;
      assert parts == [p] + parts[1..];
    } else if |parts| > 1 {
      SplitJoin(parts[1..], sep);
      assert Join(parts, sep) == [sep] + Join(parts[1..], sep);
      SplitCons(sep, Join(parts[1..], sep), sep);
      assert parts == [parts[0]] + parts[1..];
    }
  }

  /** The join of pieces whose first piece is not empty starts with that piece's first character. */
  lemma JoinHeadCons(parts: seq<string>, sep: char)
    requires |parts| >= 1 && |parts[0]| > 0
    ensures Join(parts, sep) == [parts[0][0]] + Join([parts[0][1..]] + parts[1..], sep)
  {
    var p := parts[0];
    var tail := [p[1..]] + parts[1..];
    JoinFirst(parts, sep);
    JoinFirst(tail, sep);
    assert tail[1..] == parts[1..];
    assert p == [p[0]] + p[1..];
  }

  /** Splitting a string one character longer at the front: a separator starts a new piece, anything else joins the first. */
  lemma SplitCons(c: char, x: string, sep: char)
    ensures var r := Split(x, sep);
      Split([c] + x, sep) == if c == sep then [""] + r else [[c] + r[0]] + r[1..]
  {
    assert ([c] + x)[1..] == x;
  }

  /** The join starts with the first piece and continues with a separator exactly when there are more pieces. */
  lemma JoinFirst(parts: seq<string>, sep: char)
    requires |parts| >= 1
    ensures Join(parts, sep) == parts[0] + (if |parts| == 1 then "" else [sep] + Join(parts[1..], sep))
  {
  }

  /** The string has exactly one piece when, and only when, `sep` does not occur in it. */
  lemma {:induction false} SplitSinglePiece(s: string, sep: char)
    ensures |Split(s, sep)| == 1 <==> sep !in s
    decreases |s|
  {
    if |s| > 0 {
      SplitSinglePiece(s[1..], sep);
      assert s == [s[0]] + s[1..];
    }
  }

  /** The characters Python 2's `str.rstrip()` removes, and `int()` skips around a number. */
  predicate IsSpace(c: char) {
    c == ' ' || c == '\t' || c == '\n' || c == '\r' || c == '\U{0b}' || c == '\U{0c}'
  }

  /** `s.rstrip()`: the longest prefix of `s` that does not end in white space. */
  function RStrip(s: string): (r: string)
    ensures |r| <= |s| && r == s[..|r|]
    ensures |r| == 0 || !IsSpace(r[|r| - 1])
    ensures forall k :: |r| <= k < |s| ==> IsSpace(s[k])
    decreases |s|
  {
    if |s| == 0 then s
    else if IsSpace(s[|s| - 1]) then RStrip(s[..|s| - 1])
    else s
  }

  /** `s.lstrip()`: the longest suffix of `s` that does not start with white space. */
  function LStrip(s: string): (r: string)
    ensures |r| <= |s| && r == s[|s| - |r|..]
    ensures |r| == 0 || !IsSpace(r[0])
    ensures forall k :: 0 <= k < |s| - |r| ==> IsSpace(s[k])
    decreases |s|
  {
    if |s| == 0 then s
    else if IsSpace(s[0]) then LStrip(s[1..])
    else s
  }

  /** Stripping trailing white space appended to a string that does not end in white space gives the string back. */
  lemma RStripTrailing(s: string, t: string)
    requires |s| == 0 || !IsSpace(s[|s| - 1])
    requires forall k :: 0 <= k < |t| ==> IsSpace(t[k])
    ensures RStrip(s + t) == s
  {
    assert (s + t)[..|s|] == s;
  }

  predicate IsDigit(c: char) {
    '0' <= c <= '9'
  }

  function DigitValue(c: char): nat
    requires IsDigit(c)
  {
    c as int - '0' as int
  }

  function DigitChar(d: nat): (c: char)
    requires d < 10
    ensures IsDigit(c) && DigitValue(c) == d
  {
    ('0' as int + d) as char
  }

  predicate AllDigits(s: string) {
    forall k :: 0 <= k < |s| ==> IsDigit(s[k])
  }

  /** The value of a string of decimal digits, read left to right. */
  function DigitsValue(s: string): nat
    requires AllDigits(s)
    decreases |s|
  {
    if |s| == 0 then 0
    else DigitsValue(s[..|s| - 1]) * 10 + DigitValue(s[|s| - 1])
  }

  /** `str(n)` for a natural number: decimal digits without leading zeros. */
  function NatToString(n: nat): (s: string)
    ensures |s| >= 1 && AllDigits(s)
  {
    if n < 10 then [DigitChar(n)]
    else NatToString(n / 10) + [DigitChar(n % 10)]
  }

  /** `str(n)` (and `"{}".format(n)`) for any integer. */
  function IntToString(n: int): string {
    if n < 0 then "-" + NatToString(-n) else NatToString(n)
  }

  /** An integer literal: an optional sign followed by one or more decimal digits; anything else is `None`. */
  function ParseLiteral(s: string): (r: Option<int>)
    ensures r.Some? ==> |s| >= 1 && !IsSpace(s[0]) && !IsSpace(s[|s| - 1])
  {
    if |s| >= 2 && (s[0] == '-' || s[0] == '+') && AllDigits(s[1..]) then
      Some(if s[0] == '-' then 0 - DigitsValue(s[1..]) as int else DigitsValue(s[1..]) as int)
    else if |s| >= 1 && AllDigits(s) then Some(DigitsValue(s))
    else None
  }

  /**
   * `int(s)`: white space around the literal is skipped; what is left must
   * be an optional sign and ASCII decimal digits, and anything else is read
   * as the `ValueError` case, `None`.
   */
  function ParseInt(s: string): (r: Option<int>)
    ensures r.Some? ==> |s| >= 1
  {
    ParseLiteral(LStrip(RStrip(s)))
  }

  /** White space appended to a string is all stripped from the right. */
  lemma {:induction false} RStripAppendSpace(s: string, u: string)
    requires forall k :: 0 <= k < |u| ==> IsSpace(u[k])
    ensures RStrip(s + u) == RStrip(s)
    decreases |u|
  {
    if |u| > 0 {
      assert IsSpace((s + u)[|s + u| - 1]);
      assert (s + u)[..|s + u| - 1] == s + u[..|u| - 1];
      RStripAppendSpace(s, u[..|u| - 1]);
    } else {
      assert s + u == s;
    }
  }

  /** Stripping from the right keeps a first character when anything is left after it. */
  lemma {:induction false} RStripCons(c: char, x: string)
    ensures RStrip([c] + x) == if RStrip(x) == "" then RStrip([c]) else [c] + RStrip(x)
    decreases |x|
  {
    if |x| > 0 {
      assert ([c] + x)[..|[c] + x| - 1] == [c] + x[..|x| - 1];
      if IsSpace(x[|x| - 1]) {
        RStripCons(c, x[..|x| - 1]);
      }
    }
  }

  /** A space in front is stripped from the left. */
  lemma LStripSpaceCons(c: char, r: string)
    requires IsSpace(c)
    ensures LStrip([c] + r) == LStrip(r)
  {
    assert ([c] + r)[1..] == r;
  }

  /** Leading white space makes no difference once both ends are stripped. */
  lemma {:induction false} StripPrependSpace(t: string, s: string)
    requires forall k :: 0 <= k < |t| ==> IsSpace(t[k])
    ensures LStrip(RStrip(t + s)) == LStrip(RStrip(s))
    decreases |t|
  {
    if |t| > 0 {
      var c, x := t[0], t[1..] + s;
      assert t + s == [c] + x;
      RStripCons(c, x);
      StripPrependSpace(t[1..], s);
      var r := RStrip(x);
      if r == "" {
        assert RStrip([c]) == RStrip([c][..0]);
      } else {
        LStripSpaceCons(c, r);
      }
    } else {
      assert t + s == s;
    }
  }

  /** White space around a string changes nothing that `int()` reads. */
  lemma ParseIntIgnoresSpace(t: string, s: string, u: string)
    requires forall k :: 0 <= k < |t| ==> IsSpace(t[k])
    requires forall k :: 0 <= k < |u| ==> IsSpace(u[k])
    ensures ParseInt(t + s + u) == ParseInt(s)
  {
    RStripAppendSpace(t + s, u);
    StripPrependSpace(t, s);
  }

  /** A string that neither starts nor ends with white space is its own strip. */
  lemma StripUnspaced(s: string)
    requires |s| >= 1 && !IsSpace(s[0]) && !IsSpace(s[|s| - 1])
    ensures LStrip(RStrip(s)) == s
  {
  }

  lemma {:induction false} NatToStringValue(n: nat)
    ensures DigitsValue(NatToString(n)) == n
  {
    if n >= 10 {
      NatToStringValue(n / 10);
      var s := NatToString(n);
      assert s[..|s| - 1] == NatToString(n / 10);
    }
  }

  /** Reading back a formatted integer gives the integer. */
  lemma ParseIntToString(n: int)
    ensures ParseInt(IntToString(n)) == Some(n)
  {
    IntToStringUnspaced(n);
    StripUnspaced(IntToString(n));
    LiteralOfIntToString(n);
  }

  /** A formatted integer starts with a sign or a digit and ends with a digit. */
  lemma IntToStringUnspaced(n: int)
    ensures var s := IntToString(n); |s| >= 1 && !IsSpace(s[0]) && IsDigit(s[|s| - 1])
  {
  }

  /** The literal of a formatted integer is the integer. */
  lemma LiteralOfIntToString(n: int)
    ensures ParseLiteral(IntToString(n)) == Some(n)
  {
    NatToStringValue(if n < 0 then -n else n);
    if n < 0 {
      assert IntToString(n)[1..] == NatToString(-n);
    }
  }
}
