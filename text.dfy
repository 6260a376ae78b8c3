/** Character classes and string helpers the TypeScript code gets from its
    runtime: the `\s` class and `String.prototype.trim`, `\d`, ASCII case
    mapping and decimal digits. */
module Text {

  /** ECMAScript WhiteSpace and LineTerminator code points: the `\s` class of
      a regular expression, and what `trim()` removes. */
  predicate IsSpace(c: char) {
    c == '\t' || c == '\n' || c == '\U{000B}' || c == '\U{000C}' || c == '\r' || c == ' '
    || c == '\U{00A0}' || c == '\U{1680}' || ('\U{2000}' <= c <= '\U{200A}')
    || c == '\U{2028}' || c == '\U{2029}' || c == '\U{202F}' || c == '\U{205F}'
    || c == '\U{3000}' || c == '\U{FEFF}'
  }

  /** `\d` in a regular expression without the `u` flag: ASCII digits only. */
  predicate IsDigit(c: char) {
    '0' <= c <= '9'
  }

  predicate AllDigits(s: string) {
    forall k :: 0 <= k < |s| ==> IsDigit(s[k])
  }

  function DigitValue(c: char): (d: nat)
    requires IsDigit(c)
    ensures d < 10
  {
    c as int - '0' as int
  }

  /** `Number(s)` for a string of decimal digits. */
  function DecimalValue(s: string): nat
    requires AllDigits(s)
  {
    if s == [] then 0 else 10 * DecimalValue(s[..|s| - 1]) + DigitValue(s[|s| - 1])
  }

  function DigitChar(d: nat): (c: char)
    requires d < 10
    ensures IsDigit(c) && DigitValue(c) == d
  {
    ('0' as int + d) as char
  }

  /** The decimal rendering of `n`, without leading zeros ("0" for zero). */
  function Decimal(n: nat): (s: string)
    ensures s != [] && AllDigits(s)
  {
    if n < 10 then [DigitChar(n)] else Decimal(n / 10) + [DigitChar(n % 10)]
  }

  /** Reading back a rendered number gives the number. */
  lemma {:induction false} DecimalRoundTrip(n: nat)
    ensures DecimalValue(Decimal(n)) == n
  {
    var s := Decimal(n);
    if n < 10 {
      assert s[..|s| - 1] == [];
    } else {
      assert s[..|s| - 1] == Decimal(n / 10);
      DecimalRoundTrip(n / 10);
    }
  }

  predicate AllZeros(z: string) {
    forall k :: 0 <= k < |z| ==> z[k] == '0'
  }

  /** Leading zeros add nothing to the value of a digit string. */
  lemma {:induction false} LeadingZeros(z: string, s: string)
    requires AllZeros(z) && AllDigits(s)
    ensures AllDigits(z + s) && DecimalValue(z + s) == DecimalValue(s)
  {
    assert AllDigits(z + s) by {
      forall k | 0 <= k < |z + s| ensures IsDigit((z + s)[k]) {
        if k < |z| { assert (z + s)[k] == z[k]; } else { assert (z + s)[k] == s[k - |z|]; }
      }
    }
    if s == [] {
      assert z + s == z;
      if z != [] {
        assert AllZeros(z[..|z| - 1]);
        LeadingZeros(z[..|z| - 1], []);
        assert z[..|z| - 1] + [] == z[..|z| - 1];
      }
    } else {
      var init := s[..|s| - 1];
      assert (z + s)[..|z + s| - 1] == z + init;
      assert (z + s)[|z + s| - 1] == s[|s| - 1];
      LeadingZeros(z, init);
    }
  }

  /** A number with any run of leading zeros reads back as the number. */
  lemma DecimalWithZeros(z: string, n: nat)
    requires AllZeros(z)
    ensures AllDigits(z + Decimal(n)) && DecimalValue(z + Decimal(n)) == n
  {
    LeadingZeros(z, Decimal(n));
    DecimalRoundTrip(n);
  }

  /** Appending a digit to the rendering of a positive number renders ten
      times it plus the digit. */
  lemma DecimalSnoc(v: nat, c: char)
    requires v > 0 && IsDigit(c)
    ensures Decimal(10 * v + DigitValue(c)) == Decimal(v) + [c]
  {
    var n := 10 * v + DigitValue(c);
    assert n / 10 == v && n % 10 == DigitValue(c);
    assert DigitChar(DigitValue(c)) == c;
  }

  /** Every non-empty digit string is a run of zeros followed by the
      rendering of its value. */
  lemma {:induction false} DigitsCanonical(d: string)
    requires d != [] && AllDigits(d)
    ensures exists z :: AllZeros(z) && d == z + Decimal(DecimalValue(d))
  {
    var p := d[..|d| - 1];
    var c := d[|d| - 1];
    assert d == p + [c];
    assert DecimalValue(d) == 10 * DecimalValue(p) + DigitValue(c);
    assert [c] == Decimal(DigitValue(c)) by {
      assert DigitChar(DigitValue(c)) == c;
    }
    if p == [] {
      assert d == [] + Decimal(DecimalValue(d));
    } else {
      DigitsCanonical(p);
      var v := DecimalValue(p);
      var z :| AllZeros(z) && p == z + Decimal(v);
      if v == 0 {
        assert AllZeros(p) by {
          assert Decimal(0) == "0";
        }
        assert d == p + Decimal(DecimalValue(d));
      } else {
        DecimalSnoc(v, c);
        assert d == z + (Decimal(v) + [c]);
      }
    }
  }

  function ToUpperChar(c: char): (u: char)
    ensures 'a' <= c <= 'z' ==> u as int == c as int - 32
    ensures !('a' <= c <= 'z') ==> u == c
  {
    if 'a' <= c <= 'z' then (c as int - 32) as char else c
  }

  function ToLowerChar(c: char): (l: char)
    ensures 'A' <= c <= 'Z' ==> l as int == c as int + 32
    ensures !('A' <= c <= 'Z') ==> l == c
  {
    if 'A' <= c <= 'Z' then (c as int + 32) as char else c
  }

  /** `toUpperCase()` restricted to ASCII letters. */
  function ToUpper(s: string): (u: string)
    ensures |u| == |s| && forall k :: 0 <= k < |s| ==> u[k] == ToUpperChar(s[k])
  {
    seq(|s|, k requires 0 <= k < |s| => ToUpperChar(s[k]))
  }

  /** `toLowerCase()` restricted to ASCII letters. */
  function ToLower(s: string): (l: string)
    ensures |l| == |s| && forall k :: 0 <= k < |s| ==> l[k] == ToLowerChar(s[k])
  {
    seq(|s|, k requires 0 <= k < |s| => ToLowerChar(s[k]))
  }

  /** `s.trimStart()`: the longest all-space prefix is removed. */
  function TrimStart(s: string): string {
    if s == [] || !IsSpace(s[0]) then s else TrimStart(s[1..])
  }

  /** `s.trimEnd()`: the longest all-space suffix is removed. */
  function TrimEnd(s: string): string {
    if s == [] || !IsSpace(s[|s| - 1]) then s else TrimEnd(s[..|s| - 1])
  }

  /** `s.trim()`. */
  function Trim(s: string): string {
    TrimEnd(TrimStart(s))
  }

  /** `trimStart` drops a prefix of spaces and stops at a non-space. */
  lemma {:induction false} TrimStartSpec(s: string)
    ensures |TrimStart(s)| <= |s| && TrimStart(s) == s[|s| - |TrimStart(s)|..]
    ensures TrimStart(s) == [] || !IsSpace(TrimStart(s)[0])
    ensures forall k :: 0 <= k < |s| - |TrimStart(s)| ==> IsSpace(s[k])
  {
    if s != [] && IsSpace(s[0]) {
      TrimStartSpec(s[1..]);
    }
  }

  /** `trimEnd` drops a suffix of spaces and stops at a non-space. */
  lemma {:induction false} TrimEndSpec(s: string)
    ensures |TrimEnd(s)| <= |s| && TrimEnd(s) == s[..|TrimEnd(s)|]
    ensures TrimEnd(s) == [] || !IsSpace(TrimEnd(s)[|TrimEnd(s)| - 1])
    ensures forall k :: |TrimEnd(s)| <= k < |s| ==> IsSpace(s[k])
  {
    if s != [] && IsSpace(s[|s| - 1]) {
      TrimEndSpec(s[..|s| - 1]);
    }
  }

  /** `trim()` yields the empty string exactly when its input is all space,
      and otherwise a string that neither starts nor ends with a space; it
      adds no character. */
  lemma TrimBlank(s: string)
    ensures Trim(s) == [] <==> forall k :: 0 <= k < |s| ==> IsSpace(s[k])
    ensures Trim(s) != [] ==> !IsSpace(Trim(s)[0]) && !IsSpace(Trim(s)[|Trim(s)| - 1])
    ensures forall c :: c in Trim(s) ==> c in s
  {
    var l := TrimStart(s);
    var r := TrimEnd(l);
    TrimStartSpec(s);
    TrimEndSpec(l);
    if r != [] {
      assert r[0] == l[0] == s[|s| - |l|];
    }
    forall c | c in r ensures c in s {
      var k :| 0 <= k < |r| && r[k] == c;
      assert c == l[k] == s[|s| - |l| + k];
    }
  }

  /** `trim()` leaves a string that neither starts nor ends with a space
      as it is. */
  lemma TrimKeeps(s: string)
    requires s == [] || (!IsSpace(s[0]) && !IsSpace(s[|s| - 1]))
    ensures Trim(s) == s
  {
  }

  // ----- split, join and dropping empty pieces ----------------------------

  /** `s.split(sep)` where `sep` matches single characters: the pieces
      between separators, empty ones included, so one more piece than there
      are separators. */
  function Split(s: string, sep: char -> bool): (pieces: seq<string>)
    ensures |pieces| >= 1
  {
    if s == [] then [""]
    else
      var rest := Split(s[1..], sep);
      if sep(s[0]) then [""] + rest else [[s[0]] + rest[0]] + rest[1..]
  }

  /** `pieces.join(d)`. */
  function Join(pieces: seq<string>, d: char): string
    requires |pieces| >= 1
  {
    if |pieces| == 1 then pieces[0] else pieces[0] + [d] + Join(pieces[1..], d)
  }

  /** `filter(Boolean)` / `filter(x => x.length > 0)` on strings. */
  function NonEmpty(xs: seq<string>): (ys: seq<string>)
    ensures |ys| <= |xs|
    ensures forall k :: 0 <= k < |ys| ==> ys[k] != []
    ensures forall x :: x in ys <==> x in xs && x != []
  {
    if xs == [] then [] else (if xs[0] == [] then [] else [xs[0]]) + NonEmpty(xs[1..])
  }

  ghost predicate Unseparated(s: string, sep: char -> bool) {
    forall k :: 0 <= k < |s| ==> !sep(s[k])
  }

  /** The characters of `s` that are not separators, in order. */
  function Stripped(s: string, sep: char -> bool): string {
    if s == [] then [] else (if sep(s[0]) then [] else [s[0]]) + Stripped(s[1..], sep)
  }

  function Concat(pieces: seq<string>): string {
    if pieces == [] then [] else pieces[0] + Concat(pieces[1..])
  }

  /** No piece holds a separator, and the pieces put together are the input
      without its separators. */
  lemma {:induction false} SplitPieces(s: string, sep: char -> bool)
    ensures forall i :: 0 <= i < |Split(s, sep)| ==> Unseparated(Split(s, sep)[i], sep)
    ensures Concat(Split(s, sep)) == Stripped(s, sep)
  {
    if s != [] {
      var rest := Split(s[1..], sep);
      SplitPieces(s[1..], sep);
      if !sep(s[0]) {
        var head := [s[0]] + rest[0];
        assert Unseparated(head, sep) by {
          forall k | 0 <= k < |head| ensures !sep(head[k]) {
            if k > 0 {
              assert head[k] == rest[0][k - 1];
            }
          }
        }
        assert Concat(rest) == rest[0] + Concat(rest[1..]);
      }
    }
  }

  /** A string without separators is one piece. */
  lemma {:induction false} SplitWord(s: string, sep: char -> bool)
    requires Unseparated(s, sep)
    ensures Split(s, sep) == [s]
  {
    if s != [] {
      SplitWord(s[1..], sep);
      assert [s[0]] + s[1..] == s;
    }
  }

  /** Splitting at a separator splits the two sides apart. */
  lemma {:induction false} SplitAppend(a: string, c: char, b: string, sep: char -> bool)
    requires sep(c)
    ensures Split(a + [c] + b, sep) == Split(a, sep) + Split(b, sep)
  {
    if a == [] {
      assert a + [c] + b == [c] + b;
      assert ([c] + b)[1..] == b;
    } else {
      assert (a + [c] + b)[0] == a[0];
      assert (a + [c] + b)[1..] == a[1..] + [c] + b;
      SplitAppend(a[1..], c, b, sep);
    }
  }

  /** Joining pieces without separators and splitting again gives the
      pieces back. */
  lemma {:induction false} SplitJoin(pieces: seq<string>, d: char, sep: char -> bool)
    requires |pieces| >= 1 && sep(d)
    requires forall i :: 0 <= i < |pieces| ==> Unseparated(pieces[i], sep)
    ensures Split(Join(pieces, d), sep) == pieces
  {
    SplitWord(pieces[0], sep);
    if |pieces| > 1 {
      SplitJoin(pieces[1..], d, sep);
      SplitAppend(pieces[0], d, Join(pieces[1..], d), sep);
    }
  }

  /** Splitting at the one separator character `d` and joining with `d`
      gives the input back. */
  lemma {:induction false} JoinSplit(s: string, d: char, sep: char -> bool)
    requires forall c :: sep(c) <==> c == d
    ensures Join(Split(s, sep), d) == s
  {
    if s != [] {
      var rest := Split(s[1..], sep);
      JoinSplit(s[1..], d, sep);
      if !sep(s[0]) && |rest| > 1 {
        assert Join(rest, d) == rest[0] + [d] + Join(rest[1..], d);
        assert ([[s[0]] + rest[0]] + rest[1..])[1..] == rest[1..];
      }
    }
  }

  lemma {:induction false} NonEmptyAppend(xs: seq<string>, ys: seq<string>)
    ensures NonEmpty(xs + ys) == NonEmpty(xs) + NonEmpty(ys)
  {
    if xs == [] {
      assert xs + ys == ys;
    } else {
      assert (xs + ys)[0] == xs[0];
      assert (xs + ys)[1..] == xs[1..] + ys;
      NonEmptyAppend(xs[1..], ys);
    }
  }

  lemma {:induction false} NonEmptyKeepsAll(xs: seq<string>)
    requires forall k :: 0 <= k < |xs| ==> xs[k] != []
    ensures NonEmpty(xs) == xs
  {
    if xs != [] {
      NonEmptyKeepsAll(xs[1..]);
    }
  }

  /** Dropping empty pieces does not change what they put together. */
  lemma {:induction false} ConcatNonEmpty(xs: seq<string>)
    ensures Concat(NonEmpty(xs)) == Concat(xs)
  {
    if xs != [] {
      ConcatNonEmpty(xs[1..]);
      if xs[0] != [] {
        assert NonEmpty(xs) == [xs[0]] + NonEmpty(xs[1..]);
        assert ([xs[0]] + NonEmpty(xs[1..]))[1..] == NonEmpty(xs[1..]);
      } else {
        assert NonEmpty(xs) == NonEmpty(xs[1..]);
        assert xs[0] + Concat(xs[1..]) == Concat(xs[1..]);
      }
    }
  }

  /** The characters of a concatenation are those of its pieces. */
  lemma {:induction false} ConcatHas(pieces: seq<string>)
    ensures forall c :: c in Concat(pieces) <==> exists i :: 0 <= i < |pieces| && c in pieces[i]
  {
    if pieces != [] {
      ConcatHas(pieces[1..]);
      forall c | c in Concat(pieces) ensures exists i :: 0 <= i < |pieces| && c in pieces[i] {
        assert Concat(pieces) == pieces[0] + Concat(pieces[1..]);
        if c !in pieces[0] {
          assert c in Concat(pieces[1..]);
          var i :| 0 <= i < |pieces[1..]| && c in pieces[1..][i];
          assert c in pieces[i + 1];
        }
      }
      forall c | exists i :: 0 <= i < |pieces| && c in pieces[i] ensures c in Concat(pieces) {
        var i :| 0 <= i < |pieces| && c in pieces[i];
        assert Concat(pieces) == pieces[0] + Concat(pieces[1..]);
        if i > 0 {
          assert c in pieces[1..][i - 1];
        }
      }
    }
  }

  /** The characters left after stripping are the input's non-separators. */
  lemma {:induction false} StrippedHas(s: string, sep: char -> bool)
    ensures forall c :: c in Stripped(s, sep) <==> c in s && !sep(c)
  {
    if s != [] {
      StrippedHas(s[1..], sep);
      assert s == [s[0]] + s[1..];
    }
  }
}
