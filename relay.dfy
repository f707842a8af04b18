/** The Node relay (`wa-bot/index.js`): `formatPhoneNumber`, which turns the
    phone text it receives into a WhatsApp JID, and the checks the `/send`
    handler makes before handing a message to the socket. */
module Relay {
  import opened Wrappers
  import opened Text
  import Phone

  const JidSuffix := "@s.whatsapp.net"
  const PrefixError := "Nomor WhatsApp harus diawali 62, +62, atau 0"

  predicate IsDialChar(c: char) {
    IsDigit(c) || c == '+'
  }

  /** `number.replace(/[^0-9+]/g, "")`: every character other than an ASCII
      digit or `+` is dropped, and the rest keep their order. */
  function KeepDialChars(s: string): (r: string)
    ensures |r| <= |s|
    ensures forall i :: 0 <= i < |r| ==> IsDialChar(r[i])
  {
    if s == [] then [] else (if IsDialChar(s[0]) then [s[0]] else []) + KeepDialChars(s[1..])
  }

  /** The filter works character by character: it distributes over
      concatenation, and `KeepDialCharsOne` says what it does to one
      character. */
  lemma {:induction false} KeepDialCharsAppend(a: string, b: string)
    ensures KeepDialChars(a + b) == KeepDialChars(a) + KeepDialChars(b)
  {
    if a == [] {
      assert a + b == b;
    } else {
      assert (a + b)[0] == a[0] && (a + b)[1..] == a[1..] + b;
      KeepDialCharsAppend(a[1..], b);
    }
  }

  /** A digit or `+` is kept; any other character is dropped. */
  lemma KeepDialCharsOne(x: char)
    ensures KeepDialChars([x]) == (if IsDialChar(x) then [x] else [])
  {
    assert [x][1..] == [];
  }

  /** `formatPhoneNumber(number)`: drop one leading `+`, turn a leading `0` into
      `62`, and refuse anything that does not then start with `62`. Exactly the
      filtered texts starting with `62`, `0`, `+62` or `+0` are accepted; an
      accepted JID is a `62…` dial string followed by the WhatsApp suffix,
      and for each accepted prefix the JID is the filtered text with that
      prefix rewritten to `62`. */
  function FormatPhoneNumber(number: string): (r: Result<string, string>)
    ensures var f := KeepDialChars(number);
      r.Ok? <==> "62" <= f || "0" <= f || "+62" <= f || "+0" <= f
    ensures r.Err? ==> r.error == PrefixError
    ensures r.Ok? ==> |r.value| >= |JidSuffix| + 2 && r.value[|r.value| - |JidSuffix|..] == JidSuffix
    ensures r.Ok? ==> var core := r.value[..|r.value| - |JidSuffix|];
      "62" <= core && forall i :: 0 <= i < |core| ==> IsDialChar(core[i])
    ensures var f := KeepDialChars(number); "62" <= f ==> r == Ok(f + JidSuffix)
    ensures var f := KeepDialChars(number); "0" <= f ==> r == Ok("62" + f[1..] + JidSuffix)
    ensures var f := KeepDialChars(number); "+62" <= f ==> r == Ok(f[1..] + JidSuffix)
    ensures var f := KeepDialChars(number); "+0" <= f ==> r == Ok("62" + f[2..] + JidSuffix)
  {
    var f := KeepDialChars(number);
    var g := if "+" <= f then f[1..] else f;
    var h := if "0" <= g then "62" + g[1..] else g;
    assert "+62" <= f || "+0" <= f ==> f[0] == '+' && g == f[1..];
    assert "62" <= f || "0" <= f ==> f[0] != '+' && g == f;
    assert "0" <= g ==> h[..2] == "62";
    assert "62" <= g ==> g[0] != '0' && h == g;
    if !("62" <= h) then Err(PrefixError)
    else
      assert (h + JidSuffix)[..|h|] == h;
      Ok(h + JidSuffix)
  }

  // ---------------------------------------------------------------------
  // The /send handler

  datatype Body = Failure(error: string) | Delivered(to: string, message: string)
  datatype Response = Response(status: int, body: Body)

  const MissingFieldError := "Field 'phone' dan 'message' wajib diisi"
  const NotConnectedError := "WhatsApp belum terkoneksi. Scan QR dulu."

  /** JavaScript truthiness of a string field: absent and empty are both false. */
  predicate Present(v: Option<string>) {
    v.Some? && v.value != ""
  }

  /** The `/send` handler. `connected` stands for `isConnected && sock`, and
      `socketFault` for the outcome of `sock.sendMessage` (None when it
      resolves). The checks run in a fixed order: a missing field gives 400
      whatever the connection state, then a dead connection gives 503, then a
      number the formatter refuses gives 500 without touching the socket, and
      only a message the socket accepts gives 200, addressed to the JID. */
  function SendHandler(phone: Option<string>, message: Option<string>, connected: bool,
                       socketFault: Option<string>): (r: Response)
    ensures r.status == 400 <==> !Present(phone) || !Present(message)
    ensures r.status == 400 ==> r.body == Failure(MissingFieldError)
    ensures r.status == 503 <==> Present(phone) && Present(message) && !connected
    ensures r.status == 503 ==> r.body == Failure(NotConnectedError)
    ensures r.status == 500 <==>
      (Present(phone) && Present(message) && connected
       && (FormatPhoneNumber(phone.value).Err? || socketFault.Some?))
    ensures r.status == 500 && FormatPhoneNumber(phone.value).Err? ==> r.body == Failure("Error: " + PrefixError)
    ensures r.status == 500 && FormatPhoneNumber(phone.value).Ok? ==> r.body == Failure(socketFault.value)
    ensures r.status == 200 <==>
      (Present(phone) && Present(message) && connected
       && FormatPhoneNumber(phone.value).Ok? && socketFault.None?)
    ensures r.status == 200 ==> r.body == Delivered(FormatPhoneNumber(phone.value).value, message.value)
  {
    if !Present(phone) || !Present(message) then Response(400, Failure(MissingFieldError))
    else if !connected then Response(503, Failure(NotConnectedError))
    else
      match FormatPhoneNumber(phone.value)
      case Err(e) => Response(500, Failure("Error: " + e))
      case Ok(jid) =>
        match socketFault
        case Some(fault) => Response(500, Failure(fault))
        case None => Response(200, Delivered(jid, message.value))
  }

  // ---------------------------------------------------------------------
  // Lemmas

  /** A text made only of digits and `+` passes the filter unchanged. */
  lemma {:induction false} KeepDialCharsOfDialString(s: string)
    requires forall i :: 0 <= i < |s| ==> IsDialChar(s[i])
    ensures KeepDialChars(s) == s
  {
    if s != [] {
      KeepDialCharsOfDialString(s[1..]);
      assert [s[0]] + s[1..] == s;
    }
  }

  /** The prefix rules only ever see the filtered text: formatting the filtered
      text gives the same answer as formatting the original. */
  lemma FormatSeesOnlyDialChars(number: string)
    ensures FormatPhoneNumber(KeepDialChars(number)) == FormatPhoneNumber(number)
  {
    KeepDialCharsOfDialString(KeepDialChars(number));
  }

  /** A digit string that already starts with `62` comes back as itself plus
      the suffix. */
  lemma SixtyTwoDigitsKept(s: string)
    requires AllDigits(s) && "62" <= s
    ensures FormatPhoneNumber(s) == Ok(s + JidSuffix)
  {
    KeepDialCharsOfDialString(s);
  }

  /** The four ways of writing one number that the relay accepts (`62…`,
      `0…`, `+62…` and `+0…` before the same local digits) all give the same
      JID. */
  lemma WrittenFormsAgree(d: string)
    requires AllDigits(d)
    ensures FormatPhoneNumber("62" + d) == Ok("62" + d + JidSuffix)
    ensures FormatPhoneNumber("0" + d) == Ok("62" + d + JidSuffix)
    ensures FormatPhoneNumber("+62" + d) == Ok("62" + d + JidSuffix)
    ensures FormatPhoneNumber("+0" + d) == Ok("62" + d + JidSuffix)
  {
    LocalForm("62", d);
    LocalForm("0", d);
    LocalForm("+62", d);
    LocalForm("+0", d);
  }

  /** One accepted prefix before local digits. */
  lemma LocalForm(p: string, d: string)
    requires AllDigits(d) && (p == "62" || p == "0" || p == "+62" || p == "+0")
    ensures FormatPhoneNumber(p + d) == Ok("62" + d + JidSuffix)
  {
    DialPrefixed(p, d);
    if p == "0" {
      assert (p + d)[1..] == d;
    } else if p == "+62" {
      assert (p + d)[1..] == "62" + d;
    } else if p == "+0" {
      assert (p + d)[2..] == d;
    }
  }

  /** Digits behind a written prefix of dial characters pass the filter. */
  lemma DialPrefixed(p: string, d: string)
    requires forall i :: 0 <= i < |p| ==> IsDialChar(p[i])
    requires AllDigits(d)
    ensures KeepDialChars(p + d) == p + d
  {
    var s := p + d;
    forall i | 0 <= i < |s|
      ensures IsDialChar(s[i])
    {
      if i >= |p| {
        assert s[i] == d[i - |p|];
      }
    }
    KeepDialCharsOfDialString(s);
  }

  /** The two sides disagree on a bare local number `8…`: the relay refuses it,
      while the reminder app's normalisation first turns it into `628…`, which
      the relay accepts. */
  lemma EightRejectedUnlessNormalized(s: string)
    requires AllDigits(s) && "8" <= s
    ensures FormatPhoneNumber(s) == Err(PrefixError)
    ensures Phone.NormalizePhone(s) == "62" + s
    ensures FormatPhoneNumber(Phone.NormalizePhone(s)) == Ok("62" + s + JidSuffix)
  {
    KeepDialCharsOfDialString(s);
    DigitsAreClean(s);
    assert Phone.Clean(s) == s;
    var n := "62" + s;
    assert AllDigits(n) by {
      assert forall i :: 2 <= i < |n| ==> n[i] == s[i - 2];
    }
    SixtyTwoDigitsKept(n);
  }

  /** Whatever the reminder app's normalisation produces from a digit string
      with a recognised prefix is accepted by the relay unchanged. */
  lemma NormalizedDigitsAccepted(s: string)
    requires AllDigits(s) && Phone.Recognised(s)
    ensures var n := Phone.NormalizePhone(s); FormatPhoneNumber(n) == Ok(n + JidSuffix)
  {
    DigitsAreClean(s);
    var n := Phone.NormalizePhone(s);
    assert !("+62" <= s) by {
      if |s| > 0 { assert IsDigit(s[0]); }
    }
    assert AllDigits(n) by {
      if "62" <= s {
        assert n == s;
      } else if "0" <= s {
        assert n == "62" + s[1..];
        assert forall i :: 2 <= i < |n| ==> n[i] == s[i - 1];
      } else {
        assert n == "62" + s;
        assert forall i :: 2 <= i < |n| ==> n[i] == s[i - 2];
      }
    }
    SixtyTwoDigitsKept(n);
  }

  /** A digit string has nothing for the clean-up step to remove. */
  lemma DigitsAreClean(s: string)
    requires AllDigits(s)
    ensures Phone.Clean(s) == s
  {
    assert s == [] || (!IsSpace(s[0]) && !IsSpace(s[|s| - 1]));
    StripTrimmed(s);
    assert ' ' !in s && '-' !in s;
    RemoveAbsent(s, ' ');
    RemoveAbsent(s, '-');
  }

  /** A reminder without a phone number is sent with an empty `phone`, which the
      relay turns away with 400 before it looks at the connection. */
  lemma EmptyPhoneRefused(message: Option<string>, connected: bool, socketFault: Option<string>)
    ensures SendHandler(Some(Phone.NormalizePhone("")), message, connected, socketFault).status == 400
  {
  }
}
