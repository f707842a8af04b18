/** `normalize_phone`: the reminder app's best-effort rewrite of a free-form
    phone number into the `62…` international form without a plus sign. */
module Phone {
  import opened Text

  /** The clean-up step: strip the ends, then delete every space and hyphen. */
  function Clean(s: string): string {
    Remove(Remove(Strip(s), ' '), '-')
  }

  /** No space or hyphen survives the clean-up. */
  lemma CleanShape(s: string)
    ensures ' ' !in Clean(s) && '-' !in Clean(s)
  {
    RemoveKeepsAbsent(Remove(Strip(s), ' '), '-', ' ');
  }

  /** A space or hyphen between two groups of digits is deleted and both
      groups are kept, in order: "0812 345" and "0812-345" clean to "0812345". */
  lemma CleanJoinsGroups(a: string, sep: char, b: string)
    requires AllDigits(a) && AllDigits(b) && a != [] && b != []
    requires sep == ' ' || sep == '-'
    ensures Clean(a + [sep] + b) == a + b
  {
    var s := a + [sep] + b;
    GroupsTrimmed(a, sep, b);
    NoSeparators(a);
    NoSeparators(b);
    RemoveBetween(a, sep, b, ' ');
    var t := Remove(s, ' ');
    if sep == ' ' {
      assert t == a + b;
      assert '-' !in a + b;
      RemoveAbsent(a + b, '-');
    } else {
      assert t == s;
      RemoveBetween(a, sep, b, '-');
    }
    assert Clean(s) == Remove(t, '-');
  }

  lemma GroupsTrimmed(a: string, sep: char, b: string)
    requires AllDigits(a) && AllDigits(b) && a != [] && b != []
    ensures Strip(a + [sep] + b) == a + [sep] + b
  {
    var s := a + [sep] + b;
    assert s[0] == a[0] && s[|s| - 1] == b[|b| - 1];
    StripTrimmed(s);
  }

  lemma NoSeparators(d: string)
    requires AllDigits(d)
    ensures ' ' !in d && '-' !in d
  {
  }

  /** Removing a character absent from `a` and `b` keeps both around the
      separator, which goes exactly when it is that character. */
  lemma RemoveBetween(a: string, sep: char, b: string, c: char)
    requires c !in a && c !in b
    ensures Remove(a + [sep] + b, c) == a + (if sep == c then [] else [sep]) + b
  {
    RemoveAppend(a + [sep], b, c);
    RemoveAppend(a, [sep], c);
    RemoveOne(sep, c);
    RemoveAbsent(a, c);
    RemoveAbsent(b, c);
  }

  /** The prefix rules, first match wins. */
  function PrefixRule(p: string): string {
    if "+62" <= p then p[1..]
    else if "62" <= p then p
    else if "0" <= p then "62" + p[1..]
    else if "8" <= p then "62" + p
    else p
  }

  /** The prefixes the rules recognise. */
  predicate Recognised(p: string) {
    "+62" <= p || "62" <= p || "0" <= p || "8" <= p
  }

  /** `normalize_phone(phone)`. An empty input gives ""; a cleaned input with a
      recognised prefix comes out starting with `62`, with the local digits kept
      after it; anything else comes out cleaned but otherwise unchanged. */
  function NormalizePhone(phone: string): (r: string)
    ensures phone == "" ==> r == ""
    ensures phone != "" && Recognised(Clean(phone)) ==> "62" <= r && |r| + 1 >= |Clean(phone)|
    ensures phone != "" && Recognised(Clean(phone)) ==> r[|r| - |Clean(phone)| + 1..] == Clean(phone)[1..]
    ensures phone != "" && !Recognised(Clean(phone)) ==> r == Clean(phone)
    ensures phone != "" && "+62" <= Clean(phone) ==> r == Clean(phone)[1..]
    ensures phone != "" && "62" <= Clean(phone) ==> r == Clean(phone)
    ensures phone != "" && "0" <= Clean(phone) ==> r == "62" + Clean(phone)[1..]
    ensures phone != "" && "8" <= Clean(phone) ==> r == "62" + Clean(phone)
  {
    if phone == "" then "" else
      var c := Clean(phone);
      assert "+62" <= c ==> c[0] == '+' && c[1..][..2] == "62";
      assert "62" <= c ==> c[0] == '6';
      assert "0" <= c ==> c[0] == '0';
      assert "8" <= c ==> c[0] == '8';
      PrefixRule(c)
  }

  /** The rewrite with the clean-up done in the other order (delete spaces and
      hyphens, then strip), so that no whitespace is left at either end. */
  function NormalizePhoneStable(phone: string): string {
    if phone == "" then "" else PrefixRule(Strip(Clean(phone)))
  }

  lemma RuleKeepsTrimmed(s: string)
    requires s == [] || (!IsSpace(s[0]) && !IsSpace(s[|s| - 1]))
    ensures var r := PrefixRule(s); r == [] || (!IsSpace(r[0]) && !IsSpace(r[|r| - 1]))
  {
  }

  /** The rules leave their own output alone. */
  lemma RuleIdempotent(p: string)
    ensures PrefixRule(PrefixRule(p)) == PrefixRule(p)
  {
    var r := PrefixRule(p);
    if Recognised(p) {
      assert "+62" <= p ==> p[1..][..2] == "62";
      assert r[..2] == "62";
      assert !("+62" <= r) by {
        assert r[0] == '6';
      }
    }
  }

  // ---------------------------------------------------------------------
  // Idempotence

  /** normalize_phone is NOT idempotent. The hyphen is deleted only after the
      strip, so a tab in front of a trailing hyphen survives the first call and
      is stripped by the second: "0812\t-" gives "62812\t", which gives "62812". */
  lemma {:induction false} NormalizePhoneNotIdempotent(digits: string)
    requires AllDigits(digits)
    ensures NormalizePhone("0" + digits + "\t-") == "62" + digits + "\t"
    ensures NormalizePhone(NormalizePhone("0" + digits + "\t-")) == "62" + digits
    ensures NormalizePhone(NormalizePhone("0" + digits + "\t-")) != NormalizePhone("0" + digits + "\t-")
  {
    assert ' ' !in digits && '-' !in digits by {
      assert !IsDigit(' ') && !IsDigit('-');
    }
    FirstCall(digits);
    SecondCall(digits);
    assert |"62" + digits| != |"62" + digits + "\t"|;
  }

  lemma FirstCall(digits: string)
    requires ' ' !in digits && '-' !in digits
    ensures NormalizePhone("0" + digits + "\t-") == "62" + digits + "\t"
  {
    var s := "0" + digits + "\t-";
    var t := "0" + digits + "\t";
    assert !IsSpace('0') && !IsSpace('-');
    StripTrimmed(s);
    assert ' ' !in s;
    RemoveAbsent(s, ' ');
    assert s[..|s| - 1] == t;
    assert '-' !in t;
    RemoveLast(s, '-');
    assert Clean(s) == t;
    assert t[1..] == digits + "\t";
  }

  lemma SecondCall(digits: string)
    requires AllDigits(digits) && ' ' !in digits && '-' !in digits
    ensures NormalizePhone("62" + digits + "\t") == "62" + digits
  {
    var s := "62" + digits + "\t";
    var t := "62" + digits;
    assert !IsSpace('6') && IsSpace('\t');
    assert LStrip(s) == s;
    assert s[..|s| - 1] == t;
    assert !IsSpace(t[|t| - 1]) by {
      if digits != [] {
        assert t[|t| - 1] == digits[|digits| - 1];
        assert IsDigit(digits[|digits| - 1]);
      }
    }
    assert RStrip(s) == t;
    assert ' ' !in t && '-' !in t;
    RemoveAbsent(t, ' ');
    RemoveAbsent(t, '-');
    assert Clean(s) == t;
  }

  /** Removing a character that occurs only as the last one drops just that character. */
  lemma {:induction false} RemoveLast(s: string, c: char)
    requires s != [] && s[|s| - 1] == c && c !in s[..|s| - 1]
    ensures Remove(s, c) == s[..|s| - 1]
  {
    if |s| == 1 {
      assert s[1..] == [];
    } else {
      assert s[1..][..|s| - 2] == s[1..|s| - 1];
      assert c !in s[1..|s| - 1];
      RemoveLast(s[1..], c);
      assert s[0] != c;
      assert [s[0]] + s[1..|s| - 1] == s[..|s| - 1];
    }
  }

  /** The stable rewrite is idempotent. */
  lemma NormalizePhoneStableIdempotent(phone: string)
    ensures NormalizePhoneStable(NormalizePhoneStable(phone)) == NormalizePhoneStable(phone)
  {
    var r := NormalizePhoneStable(phone);
    if r != "" {
      var s := Strip(Clean(phone));
      CleanShape(phone);
      StripShape(Clean(phone));
      RuleKeepsTrimmed(s);
      StripSubset(Clean(phone), ' ');
      StripSubset(Clean(phone), '-');
      assert ' ' !in r && '-' !in r;
      StripTrimmed(r);
      RemoveAbsent(r, ' ');
      RemoveAbsent(r, '-');
      assert Clean(r) == r;
      StripTrimmed(r);
      RuleIdempotent(s);
    }
  }

  /** Normalizing twice, as the dispatcher does (once before calling the sender
      and once inside it), gives exactly the stable rewrite. */
  lemma NormalizeTwice(phone: string)
    ensures NormalizePhone(NormalizePhone(phone)) == NormalizePhoneStable(phone)
  {
    if phone != "" {
      var c := Clean(phone);
      CleanShape(phone);
      if "+62" <= c {
        TwicePlus(c);
      } else if "62" <= c {
        var t := c[2..];
        assert c == "62" + t;
        PrefixCase("62", "62", t);
      } else if "0" <= c {
        TwiceZero(c);
      } else if "8" <= c {
        TwiceEight(c);
      } else {
        TwiceOther(c);
      }
    }
  }

  lemma TwicePlus(c: string)
    requires ' ' !in c && '-' !in c && "+62" <= c
    ensures PrefixRule(c) != "" && PrefixRule(Clean(PrefixRule(c))) == PrefixRule(Strip(c))
  {
    var t := c[3..];
    assert c == "+62" + t;
    PrefixRules(t);
    PrefixCase("+62", "62", t);
    PrefixRules(RStrip(t));
  }

  lemma TwiceZero(c: string)
    requires ' ' !in c && '-' !in c && "0" <= c
    ensures PrefixRule(c) != "" && PrefixRule(Clean(PrefixRule(c))) == PrefixRule(Strip(c))
  {
    var t := c[1..];
    assert c == "0" + t;
    PrefixRules(t);
    PrefixCase("0", "62", t);
    PrefixRules(RStrip(t));
  }

  /** What the rules make of each recognised prefix followed by `u`. */
  lemma PrefixRules(u: string)
    ensures PrefixRule("+62" + u) == "62" + u
    ensures PrefixRule("62" + u) == "62" + u
    ensures PrefixRule("0" + u) == "62" + u
    ensures PrefixRule("8" + u) == "628" + u
  {
    var plus, sixty, zero, eight := "+62" + u, "62" + u, "0" + u, "8" + u;
    assert plus[..3] == "+62" && plus[1..] == sixty;
    assert sixty[..2] == "62" && sixty[0] != '+';
    assert zero[0] == '0' && zero[1..] == u;
    assert eight[0] == '8' && "62" + eight == "628" + u;
  }

  lemma TwiceEight(c: string)
    requires ' ' !in c && '-' !in c && "8" <= c && !("+62" <= c) && !("62" <= c) && !("0" <= c)
    ensures PrefixRule(c) != "" && PrefixRule(Clean(PrefixRule(c))) == PrefixRule(Strip(c))
  {
    var t := c[1..];
    assert c == "8" + t;
    EightRule(c);
    PrefixCase("8", "628", t);
    EightRuleAfterStrip(RStrip(t));
  }

  lemma EightRule(c: string)
    requires "8" <= c && !("+62" <= c) && !("62" <= c) && !("0" <= c)
    ensures PrefixRule(c) == "628" + c[1..]
  {
    assert c == "8" + c[1..];
    assert "62" + ("8" + c[1..]) == "628" + c[1..];
  }

  lemma EightRuleAfterStrip(u: string)
    ensures PrefixRule("628" + u) == "628" + u
    ensures PrefixRule("8" + u) == "628" + u
  {
    var once, stripped := "628" + u, "8" + u;
    assert once[..2] == "62" && once[0] != '+';
    assert stripped[0] == '8';
    assert once == "62" + stripped;
  }

  lemma TwiceOther(c: string)
    requires ' ' !in c && '-' !in c && !Recognised(c)
    ensures PrefixRule(c) == c
    ensures c != "" ==> PrefixRule(Clean(c)) == PrefixRule(Strip(c))
  {
    StripSubset(c, ' ');
    StripSubset(c, '-');
    RemoveAbsent(Strip(c), ' ');
    RemoveAbsent(Strip(c), '-');
  }

  /** A recognised-prefix case of NormalizeTwice: the cleaned input is `p + t`
      and the first call turned it into `q + t`. */
  lemma PrefixCase(p: string, q: string, t: string)
    requires p != [] && !IsSpace(p[0]) && !IsSpace(p[|p| - 1])
    requires q != [] && !IsSpace(q[0]) && !IsSpace(q[|q| - 1])
    requires ' ' !in q && '-' !in q && ' ' !in t && '-' !in t
    ensures Strip(p + t) == p + RStrip(t)
    ensures Clean(q + t) == q + RStrip(t)
  {
    StripAfterPrefix(p, t);
    StripAfterPrefix(q, t);
    assert ' ' !in q + t && '-' !in q + t;
    StripSubset(q + t, ' ');
    StripSubset(q + t, '-');
    RemoveAbsent(Strip(q + t), ' ');
    RemoveAbsent(Strip(q + t), '-');
  }
}
