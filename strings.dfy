/**
 * The parts of java.lang.String, java.util.regex.Pattern and
 * java.lang.Integer that the feeds rely on, on strings as sequences of
 * characters: trim, splitting on a one-character separator, and decimal
 * integer parsing.
 */
module Strings {
  import opened Wrappers

  // ---------------------------------------------------------------------
  // String.trim

  /** String.trim treats every character up to U+0020 as white space. */
  predicate IsSpace(c: char) {
    c <= ' '
  }

  /** Number of white-space characters at the start of `s`. */
  function LeadingSpaces(s: string): (n: nat)
    ensures n <= |s|
    ensures forall k | 0 <= k < n :: IsSpace(s[k])
    ensures n < |s| ==> !IsSpace(s[n])
  {
    if |s| == 0 || !IsSpace(s[0]) then 0 else 1 + LeadingSpaces(s[1..])
  }

  /** Number of white-space characters at the end of `s`. */
  function TrailingSpaces(s: string): (n: nat)
    ensures n <= |s|
    ensures forall k | |s| - n <= k < |s| :: IsSpace(s[k])
    ensures n < |s| ==> !IsSpace(s[|s| - 1 - n])
  {
    if |s| == 0 || !IsSpace(s[|s| - 1]) then 0 else 1 + TrailingSpaces(s[..|s| - 1])
  }

  /**
   * String.trim: drops the leading white space, then the trailing white
   * space of what is left. The result is the infix of `s` that starts at
   * its first non-space character and ends at its last one.
   */
  function Trim(s: string): (r: string)
    ensures |r| <= |s|
  {
    var t := s[LeadingSpaces(s)..];
    t[..|t| - TrailingSpaces(t)]
  }

  /**
   * What trim keeps: the infix that starts at the first non-space
   * character and ends at the last one; everything outside it is white
   * space, and the result is empty exactly when all of `s` is.
   */
  lemma TrimInfix(s: string)
    ensures var r, n := Trim(s), LeadingSpaces(s);
      n + |r| <= |s| && r == s[n..n + |r|] &&
      (forall k | 0 <= k < n :: IsSpace(s[k])) &&
      (forall k | n + |r| <= k < |s| :: IsSpace(s[k])) &&
      (r != [] ==> !IsSpace(r[0]) && !IsSpace(r[|r| - 1])) &&
      (r == [] <==> forall k | 0 <= k < |s| :: IsSpace(s[k]))
  {
  }

  /** Trimming twice is trimming once. */
  lemma TrimIdempotent(s: string)
    ensures Trim(Trim(s)) == Trim(s)
  {
    TrimInfix(s);
    var r := Trim(s);
    if r != [] {
      assert LeadingSpaces(r) == 0;
      assert TrailingSpaces(r) == 0;
    }
  }

  // ---------------------------------------------------------------------
  // Splitting on a one-character separator

  /**
   * Every piece of `s` between separators, empty pieces included; there is
   * always one more piece than there are separators.
   */
  function Pieces(s: string, sep: char): (ps: seq<string>)
    ensures |ps| >= 1
    decreases |s|
  {
    if |s| == 0 then [""]
    else
      var rest := Pieces(s[1..], sep);
      if s[0] == sep then [""] + rest
      else [[s[0]] + rest[0]] + rest[1..]
  }

  /** No piece holds the separator. */
  lemma {:induction false} PiecesSeparatorFree(s: string, sep: char)
    ensures forall p | p in Pieces(s, sep) :: sep !in p
    decreases |s|
  {
    if |s| > 0 {
      PiecesSeparatorFree(s[1..], sep);
    }
  }

  /** String.join: the pieces with one separator between neighbours. */
  function Join(ps: seq<string>, sep: char): string
  {
    if |ps| == 0 then ""
    else if |ps| == 1 then ps[0]
    else ps[0] + [sep] + Join(ps[1..], sep)
  }

  /** The trailing empty strings removed, as both String.split and Pattern.splitAsStream do. */
  function DropTrailingEmpty(ps: seq<string>): (r: seq<string>)
    ensures r <= ps
    ensures r == [] || r[|r| - 1] != ""
    ensures forall k | |r| <= k < |ps| :: ps[k] == ""
  {
    if |ps| == 0 || ps[|ps| - 1] != "" then ps
    else DropTrailingEmpty(ps[..|ps| - 1])
  }

  /** A non-empty first piece is never dropped, so dropping works on the rest alone. */
  lemma {:induction false} DropTrailingEmptyFront(x: string, ps: seq<string>)
    requires x != ""
    ensures DropTrailingEmpty([x] + ps) == [x] + DropTrailingEmpty(ps)
    decreases |ps|
  {
    var xs := [x] + ps;
    if ps != [] && ps[|ps| - 1] == "" {
      assert xs[|xs| - 1] == "";
      assert xs[..|xs| - 1] == [x] + ps[..|ps| - 1];
      DropTrailingEmptyFront(x, ps[..|ps| - 1]);
    } else if ps != [] {
      assert xs[|xs| - 1] == ps[|ps| - 1];
    }
  }

  /**
   * s.split(sep) and Pattern.compile(sep).splitAsStream(s) for a
   * one-character literal separator: the pieces of `s` without the trailing
   * empty ones. When the separator does not occur the result is `s` alone,
   * so the empty string gives [""].
   */
  function Split(s: string, sep: char): (fs: seq<string>)
    ensures s == "" ==> fs == [""]
  {
    if s == "" then [""] else DropTrailingEmpty(Pieces(s, sep))
  }

  /** Without a separator in it, a string splits into itself alone. */
  lemma SplitWhole(s: string, sep: char)
    requires sep !in s
    ensures Split(s, sep) == [s]
  {
    PiecesOfPiece(s, sep);
  }

  /** Splitting loses nothing: joining the pieces gives back the string. */
  lemma {:induction false} JoinPieces(s: string, sep: char)
    ensures Join(Pieces(s, sep), sep) == s
    decreases |s|
  {
    if |s| > 0 {
      var rest := Pieces(s[1..], sep);
      JoinPieces(s[1..], sep);
      if s[0] == sep {
        assert s == [sep] + s[1..];
      } else if |rest| == 1 {
        assert s == [s[0]] + s[1..];
      } else {
        var ps := Pieces(s, sep);
        assert ps[1..] == rest[1..];
        assert Join(rest, sep) == rest[0] + [sep] + Join(rest[1..], sep);
        assert s == [s[0]] + s[1..];
      }
    }
  }

  /** A string without separators is its own only piece. */
  lemma {:induction false} PiecesOfPiece(p: string, sep: char)
    requires sep !in p
    ensures Pieces(p, sep) == [p]
    decreases |p|
  {
    if |p| > 0 {
      assert sep !in p[1..] by {
        forall k | 0 <= k < |p| - 1 ensures p[1..][k] != sep { assert p[1..][k] == p[k + 1]; }
      }
      PiecesOfPiece(p[1..], sep);
      assert [p[0]] + p[1..] == p;
    }
  }

  /** A separator-free prefix followed by a separator is the first piece. */
  lemma {:induction false} PiecesAfterPiece(p: string, sep: char, rest: string)
    requires sep !in p
    ensures Pieces(p + [sep] + rest, sep) == [p] + Pieces(rest, sep)
    decreases |p|
  {
    var s := p + [sep] + rest;
    if |p| == 0 {
      assert s == [sep] + rest;
      assert s[1..] == rest;
    } else {
      assert sep !in p[1..] by {
        forall k | 0 <= k < |p| - 1 ensures p[1..][k] != sep { assert p[1..][k] == p[k + 1]; }
      }
      PiecesAfterPiece(p[1..], sep, rest);
      assert s[1..] == p[1..] + [sep] + rest;
      assert [p[0]] + p[1..] == p;
    }
  }

  /** Joining separator-free pieces and splitting again gives back the pieces. */
  lemma {:induction false} PiecesJoin(ps: seq<string>, sep: char)
    requires |ps| >= 1
    requires forall p | p in ps :: sep !in p
    ensures Pieces(Join(ps, sep), sep) == ps
    decreases |ps|
  {
    if |ps| == 1 {
      PiecesOfPiece(ps[0], sep);
    } else {
      PiecesJoin(ps[1..], sep);
      PiecesAfterPiece(ps[0], sep, Join(ps[1..], sep));
    }
  }

  /**
   * The round trip of Split: separator-free fields whose last one is not
   * empty come back from splitting their join.
   */
  lemma SplitJoin(fs: seq<string>, sep: char)
    requires forall f | f in fs :: sep !in f
    requires fs != [] && fs[|fs| - 1] != ""
    ensures Split(Join(fs, sep), sep) == fs
  {
    PiecesJoin(fs, sep);
    JoinPieces(Join(fs, sep), sep);
  }

  /** The pieces Split returns hold no separator, and only trailing empty pieces were dropped. */
  lemma SplitPieces(s: string, sep: char)
    ensures Split(s, sep) <= Pieces(s, sep)
    ensures forall f | f in Split(s, sep) :: sep !in f
    ensures forall k | |Split(s, sep)| <= k < |Pieces(s, sep)| :: Pieces(s, sep)[k] == ""
  {
    PiecesSeparatorFree(s, sep);
  }

  // ---------------------------------------------------------------------
  // Integer.parseInt and decimal rendering

  const MinInt: int := -0x8000_0000
  const MaxInt: int := 0x7fff_ffff

  predicate IsDigit(c: char) {
    '0' <= c <= '9'
  }

  predicate AllDigits(s: string) {
    forall k | 0 <= k < |s| :: IsDigit(s[k])
  }

  function DigitValue(c: char): (d: nat)
    requires IsDigit(c)
    ensures d < 10
  {
    (c as int) - ('0' as int)
  }

  function DigitChar(d: nat): (c: char)
    requires d < 10
    ensures IsDigit(c) && DigitValue(c) == d
  {
    (('0' as int) + d) as char
  }

  /** The value of a string of decimal digits, most significant first. */
  function DigitsValue(ds: string): nat
    requires AllDigits(ds)
  {
    if |ds| == 0 then 0
    else DigitsValue(ds[..|ds| - 1]) * 10 + DigitValue(ds[|ds| - 1])
  }

  /**
   * Integer.parseInt(s) for ASCII digits: an optional sign followed by at
   * least one digit, and a value that fits in 32 bits; None is the
   * NumberFormatException.
   */
  function ParseInt(s: string): (r: Option<int>)
    ensures r.Some? ==> MinInt <= r.value <= MaxInt
    ensures r.Some? ==> |s| > 0 && (AllDigits(s) || (|s| > 1 && (s[0] == '-' || s[0] == '+') && AllDigits(s[1..])))
  {
    if |s| == 0 then None
    else if s[0] == '-' || s[0] == '+' then
      if |s| == 1 || !AllDigits(s[1..]) then None
      else
        var m: int := DigitsValue(s[1..]);
        var v := if s[0] == '-' then -m else m;
        if MinInt <= v <= MaxInt then Some(v) else None
    else if !AllDigits(s) then None
    else if DigitsValue(s) <= MaxInt then Some(DigitsValue(s))
    else None
  }

  /** Decimal digits of `n` without leading zeros. */
  function NatToString(n: nat): (s: string)
    ensures |s| >= 1 && AllDigits(s)
  {
    if n < 10 then [DigitChar(n)] else NatToString(n / 10) + [DigitChar(n % 10)]
  }

  /** Integer.toString: a minus sign before the digits of a negative number. */
  function IntToString(n: int): string
  {
    if n < 0 then "-" + NatToString(-n) else NatToString(n)
  }

  lemma {:induction false} DigitsOfNat(n: nat)
    ensures DigitsValue(NatToString(n)) == n
  {
    if n >= 10 {
      var s := NatToString(n);
      DigitsOfNat(n / 10);
      assert s[..|s| - 1] == NatToString(n / 10);
    }
  }

  /** Parsing the decimal rendering of a 32-bit integer gives it back. */
  lemma ParseIntToString(n: int)
    requires MinInt <= n <= MaxInt
    ensures ParseInt(IntToString(n)) == Some(n)
  {
    if n < 0 {
      var d := NatToString(-n);
      var s := "-" + d;
      assert s == IntToString(n);
      assert s[0] == '-' && s[1..] == d;
      DigitsOfNat(-n);
      assert DigitsValue(s[1..]) == -n;
    } else {
      var s := NatToString(n);
      assert s == IntToString(n);
      assert IsDigit(s[0]);
      DigitsOfNat(n);
    }
  }
}
