/** String helpers shared by the model: Python's notion of whitespace (used by
    `str.split()` and `str.strip()`), character removal (`str.replace(c, "")`),
    decimal digit strings, and the byte-wise ordering SQLite uses for TEXT. */
module Text {
  import opened Wrappers

  /** The characters for which Python's `str.isspace()` holds. */
  predicate IsSpace(c: char) {
    || ('\t' <= c <= '\r')
    || ('\U{1C}' <= c <= '\U{1F}')
    || c == ' '
    || c == '\U{85}'
    || c == '\U{A0}'
    || c == '\U{1680}'
    || ('\U{2000}' <= c <= '\U{200A}')
    || c == '\U{2028}'
    || c == '\U{2029}'
    || c == '\U{202F}'
    || c == '\U{205F}'
    || c == '\U{3000}'
  }

  /** `s.lstrip()` */
  function LStrip(s: string): string {
    if s != [] && IsSpace(s[0]) then LStrip(s[1..]) else s
  }

  /** `s.rstrip()` */
  function RStrip(s: string): string {
    if s != [] && IsSpace(s[|s| - 1]) then RStrip(s[..|s| - 1]) else s
  }

  /** `s.strip()` */
  function Strip(s: string): string {
    RStrip(LStrip(s))
  }

  /** `s.replace(c, "")` for a one-character `c`. */
  function Remove(s: string, c: char): (r: string)
    ensures c !in r
  {
    if s == [] then [] else (if s[0] == c then [] else [s[0]]) + Remove(s[1..], c)
  }

  /** `replace` works character by character: it distributes over
      concatenation, and `RemoveOne` says what it does to one character. */
  lemma {:induction false} RemoveAppend(a: string, b: string, c: char)
    ensures Remove(a + b, c) == Remove(a, c) + Remove(b, c)
  {
    if a == [] {
      assert a + b == b;
    } else {
      var head := if a[0] == c then [] else [a[0]];
      assert (a + b)[0] == a[0] && (a + b)[1..] == a[1..] + b;
      RemoveAppend(a[1..], b, c);
      assert Remove(a + b, c) == head + Remove(a[1..] + b, c);
    }
  }

  /** `replace(c, "")` drops `c` itself and keeps every other character. */
  lemma RemoveOne(x: char, c: char)
    ensures Remove([x], c) == (if x == c then [] else [x])
  {
    assert [x][1..] == [];
  }

  /** The first whitespace-separated token of `s`: `s.split()[0]`, or None
      where Python raises IndexError because `s` is blank. */
  function FirstToken(s: string): (r: Option<string>)
    ensures r.Some? ==> r.value != [] && forall i :: 0 <= i < |r.value| ==> !IsSpace(r.value[i])
  {
    var t := LStrip(s);
    LStripShape(s);
    if t == [] then None else Some(TakeWord(t))
  }

  /** The longest prefix of `s` without whitespace. */
  function TakeWord(s: string): (r: string)
    ensures |r| <= |s| && r == s[..|r|]
    ensures forall i :: 0 <= i < |r| ==> !IsSpace(r[i])
    ensures s != [] && !IsSpace(s[0]) ==> r != []
  {
    if s == [] || IsSpace(s[0]) then [] else [s[0]] + TakeWord(s[1..])
  }

  /** A string without whitespace is its own first token. */
  lemma {:induction false} TakeWordWhole(s: string)
    requires forall i :: 0 <= i < |s| ==> !IsSpace(s[i])
    ensures TakeWord(s) == s
  {
    if s != [] {
      TakeWordWhole(s[1..]);
      assert [s[0]] + s[1..] == s;
    }
  }

  /** A word ends at the first whitespace after it. */
  lemma {:induction false} TakeWordUpTo(t: string, u: string)
    requires forall i :: 0 <= i < |t| ==> !IsSpace(t[i])
    requires u == [] || IsSpace(u[0])
    ensures TakeWord(t + u) == t
  {
    if t != [] {
      assert (t + u)[1..] == t[1..] + u;
      TakeWordUpTo(t[1..], u);
      assert [t[0]] + t[1..] == t;
    }
  }

  /** Leading whitespace is all that `lstrip` removes. */
  lemma {:induction false} LStripLeading(w: string, x: string)
    requires forall i :: 0 <= i < |w| ==> IsSpace(w[i])
    requires x == [] || !IsSpace(x[0])
    ensures LStrip(w + x) == x
  {
    if w != [] {
      assert (w + x)[1..] == w[1..] + x;
      LStripLeading(w[1..], x);
    } else {
      assert w + x == x;
    }
  }

  lemma {:induction false} LStripShape(s: string)
    ensures LStrip(s) == [] || !IsSpace(LStrip(s)[0])
    ensures |LStrip(s)| <= |s| && LStrip(s) == s[|s| - |LStrip(s)|..]
  {
    if s != [] && IsSpace(s[0]) {
      LStripShape(s[1..]);
    }
  }

  lemma {:induction false} RStripShape(s: string)
    ensures RStrip(s) == [] || !IsSpace(RStrip(s)[|RStrip(s)| - 1])
    ensures |RStrip(s)| <= |s| && RStrip(s) == s[..|RStrip(s)|]
  {
    if s != [] && IsSpace(s[|s| - 1]) {
      RStripShape(s[..|s| - 1]);
    }
  }

  /** No whitespace is left at either end of a stripped string. */
  lemma StripShape(s: string)
    ensures var r := Strip(s); r == [] || (!IsSpace(r[0]) && !IsSpace(r[|r| - 1]))
  {
    LStripShape(s);
    RStripShape(LStrip(s));
  }

  /** Stripping a string that starts with a non-blank prefix `p` only trims the
      end of what follows `p`. */
  lemma {:induction false} StripAfterPrefix(p: string, t: string)
    requires p != [] && !IsSpace(p[0]) && !IsSpace(p[|p| - 1])
    ensures Strip(p + t) == p + RStrip(t)
  {
    assert LStrip(p + t) == p + t;
    RStripAfterPrefix(p, t);
  }

  lemma {:induction false} RStripAfterPrefix(p: string, t: string)
    requires p != [] && !IsSpace(p[|p| - 1])
    ensures RStrip(p + t) == p + RStrip(t)
  {
    if t == [] {
      assert p + t == p;
    } else if IsSpace(t[|t| - 1]) {
      assert (p + t)[..|p + t| - 1] == p + t[..|t| - 1];
      RStripAfterPrefix(p, t[..|t| - 1]);
    }
  }

  /** A string with no whitespace at its ends is its own strip. */
  lemma StripTrimmed(s: string)
    requires s == [] || (!IsSpace(s[0]) && !IsSpace(s[|s| - 1]))
    ensures Strip(s) == s
  {
  }

  /** Stripping keeps only characters of the input. */
  lemma {:induction false} StripSubset(s: string, c: char)
    requires c !in s
    ensures c !in Strip(s)
  {
    LStripShape(s);
    RStripShape(LStrip(s));
    assert forall x :: x in Strip(s) ==> x in LStrip(s);
    assert forall x :: x in LStrip(s) ==> x in s;
  }

  /** Removing a character that does not occur changes nothing. */
  lemma {:induction false} RemoveAbsent(s: string, c: char)
    requires c !in s
    ensures Remove(s, c) == s
  {
    if s != [] {
      assert c !in s[1..];
      RemoveAbsent(s[1..], c);
      assert [s[0]] + s[1..] == s;
    }
  }

  /** Removing one character never introduces another. */
  lemma {:induction false} RemoveKeepsAbsent(s: string, c: char, d: char)
    requires d !in s
    ensures d !in Remove(s, c)
  {
    if s != [] {
      assert d !in s[1..];
      RemoveKeepsAbsent(s[1..], c, d);
    }
  }

  // ---------------------------------------------------------------------
  // Decimal digits

  predicate IsDigit(c: char) {
    '0' <= c <= '9'
  }

  predicate AllDigits(s: string) {
    forall i :: 0 <= i < |s| ==> IsDigit(s[i])
  }

  function DigitChar(n: nat): (c: char)
    requires n < 10
    ensures IsDigit(c)
  {
    (n + '0' as int) as char
  }

  function DigitValue(c: char): (n: nat)
    requires IsDigit(c)
    ensures n < 10 && DigitChar(n) == c
  {
    c as int - '0' as int
  }

  function Pow10(w: nat): (p: nat)
    ensures p >= 1
  {
    if w == 0 then 1 else 10 * Pow10(w - 1)
  }

  /** The last `w` decimal digits of `n`, zero-padded on the left. */
  function Digits(n: nat, w: nat): (s: string)
    ensures |s| == w && AllDigits(s)
  {
    if w == 0 then "" else Digits(n / 10, w - 1) + [DigitChar(n % 10)]
  }

  /** The number an all-digit string denotes, as Python's `int()` reads it. */
  function Value(s: string): nat
    requires AllDigits(s)
  {
    if s == [] then 0 else Value(s[..|s| - 1]) * 10 + DigitValue(s[|s| - 1])
  }

  /** How many digits `n` takes when written without padding. */
  function NumDigits(n: nat): (k: nat)
    ensures k >= 1
  {
    if n < 10 then 1 else 1 + NumDigits(n / 10)
  }

  /** Python's `f"{n:0{w}d}"`: zero padding to width `w`, the sign counted in
      the width, never truncating. */
  function ZeroPadded(n: int, w: nat): string {
    if n >= 0 then Digits(n, Max(w, NumDigits(n)))
    else "-" + Digits(-n, Max(if w > 0 then w - 1 else 0, NumDigits(-n)))
  }

  function Max(a: nat, b: nat): nat {
    if a < b then b else a
  }

  /** Reading back `w` printed digits gives the number, when it fits. */
  lemma {:induction false} ValueOfDigits(n: nat, w: nat)
    requires n < Pow10(w)
    ensures Value(Digits(n, w)) == n
  {
    if w > 0 {
      var s := Digits(n, w);
      assert s[..|s| - 1] == Digits(n / 10, w - 1);
      assert n / 10 < Pow10(w - 1);
      ValueOfDigits(n / 10, w - 1);
      assert DigitValue(s[|s| - 1]) == n % 10;
    }
  }

  /** An all-digit string is the fixed-width print of its value. */
  lemma {:induction false} DigitsOfValue(s: string)
    requires AllDigits(s)
    ensures Value(s) < Pow10(|s|) && Digits(Value(s), |s|) == s
  {
    if s != [] {
      var init := s[..|s| - 1];
      DigitsOfValue(init);
      assert s == init + [s[|s| - 1]];
    }
  }

  /** A number below `10^w` takes at most `w` digits. */
  lemma {:induction false} NumDigitsBound(n: nat, w: nat)
    requires w >= 1 && n < Pow10(w)
    ensures NumDigits(n) <= w
  {
    if n >= 10 {
      NumDigitsBound(n / 10, w - 1);
    }
  }

  // ---------------------------------------------------------------------
  // Ordering of TEXT values

  /** SQLite's BINARY collation: code-point order, which is the byte order of
      the UTF-8 encoding, with a proper prefix first. */
  predicate StrLe(a: string, b: string) {
    a == [] || (b != [] && (a[0] < b[0] || (a[0] == b[0] && StrLe(a[1..], b[1..]))))
  }

  lemma {:induction false} StrLeRefl(a: string)
    ensures StrLe(a, a)
  {
    if a != [] {
      StrLeRefl(a[1..]);
    }
  }

  lemma {:induction false} StrLeTotal(a: string, b: string)
    ensures StrLe(a, b) || StrLe(b, a)
  {
    if a != [] && b != [] && a[0] == b[0] {
      StrLeTotal(a[1..], b[1..]);
    }
  }

  lemma {:induction false} StrLeTrans(a: string, b: string, c: string)
    requires StrLe(a, b) && StrLe(b, c)
    ensures StrLe(a, c)
  {
    if a != [] && a[0] == b[0] && b[0] == c[0] {
      StrLeTrans(a[1..], b[1..], c[1..]);
    }
  }

  lemma {:induction false} StrLeAntisym(a: string, b: string)
    requires StrLe(a, b) && StrLe(b, a)
    ensures a == b
  {
    if a != [] {
      StrLeAntisym(a[1..], b[1..]);
      assert a == [a[0]] + a[1..] && b == [b[0]] + b[1..];
    }
  }

  /** Comparing two concatenations whose first parts have the same length:
      the first parts decide unless they are equal. */
  lemma {:induction false} StrLeConcat(x1: string, y1: string, x2: string, y2: string)
    requires |x1| == |x2|
    ensures StrLe(x1 + y1, x2 + y2) <==> (x1 != x2 && StrLe(x1, x2)) || (x1 == x2 && StrLe(y1, y2))
  {
    if x1 == [] {
      assert x1 + y1 == y1 && x2 + y2 == y2;
    } else {
      assert (x1 + y1)[0] == x1[0] && (x2 + y2)[0] == x2[0];
      assert (x1 + y1)[1..] == x1[1..] + y1 && (x2 + y2)[1..] == x2[1..] + y2;
      StrLeConcat(x1[1..], y1, x2[1..], y2);
      if x1[0] == x2[0] {
        assert x1 == x2 <==> x1[1..] == x2[1..] by {
          assert x1 == [x1[0]] + x1[1..] && x2 == [x2[0]] + x2[1..];
        }
      }
    }
  }

  /** On fixed-width digit strings the text order is the numeric order. */
  lemma {:induction false} DigitsOrder(a: nat, b: nat, w: nat)
    requires a < Pow10(w) && b < Pow10(w)
    ensures StrLe(Digits(a, w), Digits(b, w)) <==> a <= b
  {
    if w > 0 {
      var pa, pb := Digits(a / 10, w - 1), Digits(b / 10, w - 1);
      DigitsOrder(a / 10, b / 10, w - 1);
      StrLeConcat(pa, [DigitChar(a % 10)], pb, [DigitChar(b % 10)]);
      ValueOfDigits(a / 10, w - 1);
      ValueOfDigits(b / 10, w - 1);
      assert pa == pb <==> a / 10 == b / 10;
      assert StrLe([DigitChar(a % 10)], [DigitChar(b % 10)]) <==> a % 10 <= b % 10 by {
        assert [DigitChar(a % 10)][1..] == [];
      }
    }
  }
}
