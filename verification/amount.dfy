/** The tolerant monetary-token reader `parse_amount` (main.c:234-282). It keeps the
    digits and dots of a token, remembers whether a `(` or `-` was seen, and reads
    the kept text as a decimal number the way `strtod` does. */
module Amount {
  import opened Text

  /** Size of the buffer the kept characters go into (`char buf[64]`). */
  const AmountBufLen: nat := 64

  /** A character that marks the amount negative: an opening parenthesis or a minus. */
  predicate SetsNegative(c: char) {
    c == '(' || c == '-'
  }

  /** A character the reader keeps for `strtod`. */
  predicate Kept(c: char) {
    IsDigit(c) || c == '.'
  }

  predicate AllKept(buf: seq<char>) {
    forall k :: 0 <= k < |buf| ==> Kept(buf[k])
  }

  predicate HasDigit(buf: seq<char>) {
    exists k :: 0 <= k < |buf| && IsDigit(buf[k])
  }

  lemma HasDigitAppend(buf: seq<char>, c: char)
    ensures HasDigit(buf + [c]) <==> HasDigit(buf) || IsDigit(c)
  {
    if HasDigit(buf) {
      var k :| 0 <= k < |buf| && IsDigit(buf[k]);
      assert (buf + [c])[k] == buf[k];
    }
    if IsDigit(c) {
      assert (buf + [c])[|buf|] == c;
    }
    if HasDigit(buf + [c]) && !IsDigit(c) {
      var k :| 0 <= k < |buf| + 1 && IsDigit((buf + [c])[k]);
      assert k < |buf| && buf[k] == (buf + [c])[k];
    }
  }

  /** The kept characters and the negative flag once the reader has stopped. */
  datatype Scan = Scan(buf: seq<char>, negative: bool)

  /** The reader from the rest `s` of the token on, with `buf` kept so far. It stops at
      the end of the token or once `buf` is full (63 characters and the NUL); on the
      way, `(` and `-` set the flag, digits and dots are kept, and everything else
      (`)`, `+`, `$`, `,`, white space and any other character) is passed over. */
  function Retain(s: seq<char>, buf: seq<char>, negative: bool): (r: Scan)
    ensures buf <= r.buf
    ensures |buf| < AmountBufLen ==> |r.buf| < AmountBufLen
    ensures negative ==> r.negative
    decreases |s|
  {
    if s == [] || |buf| + 1 >= AmountBufLen then Scan(buf, negative)
    else if SetsNegative(s[0]) then Retain(s[1..], buf, true)
    else if Kept(s[0]) then Retain(s[1..], buf + [s[0]], negative)
    else Retain(s[1..], buf, negative)
  }

  /** The reader keeps digits and dots only. */
  lemma {:induction false} RetainKept(s: seq<char>, buf: seq<char>, negative: bool)
    requires AllKept(buf)
    ensures AllKept(Retain(s, buf, negative).buf)
    decreases |s|
  {
    if s != [] && |buf| + 1 < AmountBufLen {
      if SetsNegative(s[0]) {
        RetainKept(s[1..], buf, true);
      } else if Kept(s[0]) {
        RetainKept(s[1..], buf + [s[0]], negative);
      } else {
        RetainKept(s[1..], buf, negative);
      }
    }
  }

  /** The digits and dots of `s`, in order. */
  function KeptChars(s: seq<char>): (r: seq<char>)
    ensures |r| <= |s|
    ensures AllKept(r)
  {
    if s == [] then [] else (if Kept(s[0]) then [s[0]] else []) + KeptChars(s[1..])
  }

  /** `s` holds a `(` or a `-`. */
  predicate HasNegative(s: seq<char>) {
    exists k :: 0 <= k < |s| && SetsNegative(s[k])
  }

  lemma HasNegativeCons(s: seq<char>)
    requires s != []
    ensures HasNegative(s) <==> SetsNegative(s[0]) || HasNegative(s[1..])
  {
    if HasNegative(s[1..]) {
      var k :| 0 <= k < |s[1..]| && SetsNegative(s[1..][k]);
      assert s[k + 1] == s[1..][k];
    }
    if HasNegative(s) {
      var k :| 0 <= k < |s| && SetsNegative(s[k]);
      if k > 0 {
        assert s[1..][k - 1] == s[k];
      }
    }
  }

  /** While the buffer does not fill up, the reader keeps exactly the digits and dots
      of the token, in order, and ends negative exactly when it started so or the
      token holds a `(` or a `-`. */
  lemma {:induction false} RetainKeptChars(s: seq<char>, buf: seq<char>, negative: bool)
    requires |buf| + |KeptChars(s)| < AmountBufLen - 1
    ensures Retain(s, buf, negative).buf == buf + KeptChars(s)
    ensures Retain(s, buf, negative).negative <==>
              negative || exists k :: 0 <= k < |s| && SetsNegative(s[k])
    decreases |s|
  {
    if s == [] {
      assert buf + KeptChars(s) == buf;
    } else {
      var neg' := negative || SetsNegative(s[0]);
      var buf' := if Kept(s[0]) then buf + [s[0]] else buf;
      assert Retain(s, buf, negative) == Retain(s[1..], buf', neg');
      var rest := KeptChars(s[1..]);
      if Kept(s[0]) {
        assert KeptChars(s) == [s[0]] + rest;
        assert buf + ([s[0]] + rest) == (buf + [s[0]]) + rest;
      } else {
        assert KeptChars(s) == [] + rest == rest;
      }
      RetainKeptChars(s[1..], buf', neg');
      HasNegativeCons(s);
    }
  }

  /** A character that is neither kept nor sets the flag makes no difference. */
  lemma RetainSkips(c: char, s: seq<char>, buf: seq<char>, negative: bool)
    requires !Kept(c) && !SetsNegative(c) && |buf| + 1 < AmountBufLen
    ensures Retain([c] + s, buf, negative) == Retain(s, buf, negative)
  {
    assert ([c] + s)[1..] == s;
  }

  // ---------------------------------------------------------------------------
  // strtod on a text of digits and dots
  // ---------------------------------------------------------------------------

  /** Number of digits `s` starts with. */
  function LeadingDigits(s: seq<char>): (n: nat)
    ensures n <= |s|
    ensures forall k :: 0 <= k < n ==> IsDigit(s[k])
    ensures n < |s| ==> !IsDigit(s[n])
  {
    if s != [] && IsDigit(s[0]) then 1 + LeadingDigits(s[1..]) else 0
  }

  function DigitValue(c: char): nat
    requires IsDigit(c)
  {
    c as int - '0' as int
  }

  /** The value of a string of decimal digits. */
  function DigitsValue(s: seq<char>): nat
    requires forall k :: 0 <= k < |s| ==> IsDigit(s[k])
  {
    if s == [] then 0 else 10 * DigitsValue(s[..|s| - 1]) + DigitValue(s[|s| - 1])
  }

  function Pow10(n: nat): (p: nat)
    ensures p >= 1
  {
    if n == 0 then 1 else 10 * Pow10(n - 1)
  }

  /** What `strtod` reads from a text of digits and dots: the longest prefix that is a
      decimal numeral (digits, then optionally a dot and more digits, with at least one
      digit in all). `None` when no prefix is one, which is `strtod` leaving its end
      pointer at the start. */
  function Strtod(buf: seq<char>): (r: Option<real>)
    requires AllKept(buf)
    ensures r.Some? ==> r.value >= 0.0
    ensures r.None? <==> buf == [] || (buf[0] == '.' && (|buf| == 1 || !IsDigit(buf[1])))
  {
    var d := LeadingDigits(buf);
    if d < |buf| && buf[d] == '.' then
      var rest := buf[d + 1..];
      var f := LeadingDigits(rest);
      if d + f == 0 then None
      else Some(Decimal(DigitsValue(buf[..d]), DigitsValue(rest[..f]), f))
    else if d == 0 then None
    else Some(DigitsValue(buf[..d]) as real)
  }

  /** The number written with whole part `whole` and the `digits` fraction digits
      whose value is `frac`. */
  function Decimal(whole: nat, frac: nat, digits: nat): (r: real)
    ensures r >= whole as real
  {
    whole as real + frac as real / Pow10(digits) as real
  }

  /** `strtod` finds no number in a text without digits. */
  lemma StrtodNeedsDigit(buf: seq<char>)
    requires AllKept(buf)
    ensures Strtod(buf).Some? ==> HasDigit(buf)
  {
    if Strtod(buf).Some? {
      if IsDigit(buf[0]) {
        assert IsDigit(buf[0]);
      } else {
        assert IsDigit(buf[1]);
      }
    }
  }

  /** The decimal digits of `n`, most significant first. */
  function NatDigits(n: nat): (s: seq<char>)
    ensures |s| >= 1
    ensures forall k :: 0 <= k < |s| ==> IsDigit(s[k])
  {
    if n < 10 then [('0' as int + n) as char]
    else NatDigits(n / 10) + [('0' as int + n % 10) as char]
  }

  lemma {:induction false} DigitsValueNatDigits(n: nat)
    ensures DigitsValue(NatDigits(n)) == n
  {
    if n >= 10 {
      var s := NatDigits(n);
      assert s[..|s| - 1] == NatDigits(n / 10);
      DigitsValueNatDigits(n / 10);
    }
  }

  /** `strtod` reads back every whole number written in decimal. */
  lemma StrtodNatDigits(n: nat)
    ensures Strtod(NatDigits(n)) == Some(n as real)
  {
    var s := NatDigits(n);
    assert LeadingDigits(s) == |s|;
    assert s[..|s|] == s;
    DigitsValueNatDigits(n);
  }

  // ---------------------------------------------------------------------------
  // parse_amount
  // ---------------------------------------------------------------------------

  /** The value `parse_amount` reports for a token, `None` for `*ok = 0`. */
  function AmountOf(value: seq<char>): (r: Option<real>)
    ensures r.Some? ==> HasDigit(Retain(value, [], false).buf)
  {
    var sc := Retain(value, [], false);
    RetainKept(value, [], false);
    StrtodNeedsDigit(sc.buf);
    match Strtod(sc.buf)
    case None => None
    case Some(v) => Some(if sc.negative then -v else v)
  }

  /** For a token with fewer than 63 digits and dots (so the buffer never fills):
      the token is accepted exactly when `strtod` reads a number from its digits and
      dots, and the amount is that number, negated exactly when the token holds a
      `(` or a `-`. */
  lemma AmountOfSpec(value: seq<char>)
    ensures |KeptChars(value)| < AmountBufLen - 1 ==>
              (AmountOf(value).Some? <==> Strtod(KeptChars(value)).Some?)
    ensures |KeptChars(value)| < AmountBufLen - 1 && AmountOf(value).Some? ==>
              AmountOf(value).value ==
                if exists k :: 0 <= k < |value| && SetsNegative(value[k])
                then -Strtod(KeptChars(value)).value else Strtod(KeptChars(value)).value
  {
    if |KeptChars(value)| < AmountBufLen - 1 {
      RetainKeptChars(value, [], false);
      assert [] + KeptChars(value) == KeptChars(value);
    }
  }

  /** `parse_amount`: one pass over the token filling `buf` and the flags, the
      `saw_digit` check, then `strtod` on `buf` and the sign. */
  method ParseAmount(value: seq<char>) returns (amt: real, ok: bool)
    ensures ok == AmountOf(value).Some?
    ensures ok ==> amt == AmountOf(value).value
    ensures !ok ==> amt == 0.0
  {
    var buf: seq<char> := [];
    var negative, sawDigit := false, false;
    var i := 0;
    while i < |value| && |buf| + 1 < AmountBufLen
      invariant i <= |value| && |buf| < AmountBufLen && AllKept(buf)
      invariant sawDigit <==> HasDigit(buf)
      invariant Retain(value[i..], buf, negative) == Retain(value, [], false)
    {
      assert value[i..][0] == value[i] && value[i..][1..] == value[i + 1..];
      var c := value[i];
      if c == '(' || c == '-' {
        negative := true;
      } else if IsDigit(c) || c == '.' {
        HasDigitAppend(buf, c);
        buf := buf + [c];
        if IsDigit(c) {
          sawDigit := true;
        }
      }
      i := i + 1;
    }
    assert Retain(value[i..], buf, negative) == Scan(buf, negative);
    RetainKept(value, [], false);
    if !sawDigit {
      StrtodNeedsDigit(buf);
      return 0.0, false;
    }
    var v := Strtod(buf);
    if v.None? {
      return 0.0, false;
    }
    ok := true;
    amt := if negative then -v.value else v.value;
  }

  // ---------------------------------------------------------------------------
  // Examples
  // ---------------------------------------------------------------------------

  /** One character of the reader, at position `i` of the token. */
  lemma RetainAt(v: seq<char>, i: nat, buf: seq<char>, negative: bool)
    requires i < |v| && |buf| + 1 < AmountBufLen
    ensures Retain(v[i..], buf, negative)
            == if SetsNegative(v[i]) then Retain(v[i + 1..], buf, true)
               else if Kept(v[i]) then Retain(v[i + 1..], buf + [v[i]], negative)
               else Retain(v[i + 1..], buf, negative)
  {
    assert v[i..][0] == v[i] && v[i..][1..] == v[i + 1..];
  }

  /** A run of digits and dots that fits is kept as it is. */
  lemma {:induction false} RetainRun(s: seq<char>, t: seq<char>, buf: seq<char>, negative: bool)
    requires AllKept(s) && |buf| + |s| < AmountBufLen
    ensures Retain(s + t, buf, negative) == Retain(t, buf + s, negative)
  {
    if s == [] {
      assert s + t == t && buf + s == buf;
    } else {
      assert (s + t)[0] == s[0] && (s + t)[1..] == s[1..] + t;
      RetainRun(s[1..], t, buf + [s[0]], negative);
      assert buf + [s[0]] + s[1..] == buf + s;
    }
  }

  lemma DigitsSnoc(s: seq<char>, c: char)
    requires forall k :: 0 <= k < |s| ==> IsDigit(s[k])
    requires IsDigit(c)
    ensures DigitsValue(s + [c]) == 10 * DigitsValue(s) + DigitValue(c)
  {
    assert (s + [c])[..|s|] == s;
  }

  lemma {:induction false} LeadingDigitsRun(d: seq<char>, rest: seq<char>)
    requires forall k :: 0 <= k < |d| ==> IsDigit(d[k])
    requires rest == [] || !IsDigit(rest[0])
    ensures LeadingDigits(d + rest) == |d|
  {
    if d == [] {
      assert d + rest == rest;
    } else {
      assert (d + rest)[1..] == d[1..] + rest;
      LeadingDigitsRun(d[1..], rest);
    }
  }

  /** `strtod` reads a numeral with a fraction part as its value. */
  lemma StrtodDecimal(d: seq<char>, f: seq<char>)
    requires forall k :: 0 <= k < |d| ==> IsDigit(d[k])
    requires forall k :: 0 <= k < |f| ==> IsDigit(f[k])
    requires |d| + |f| >= 1
    ensures AllKept(d + ['.'] + f)
    ensures Strtod(d + ['.'] + f) == Some(Decimal(DigitsValue(d), DigitsValue(f), |f|))
  {
    DecimalParts(d, f);
  }

  /** The numeral `d.f` splits at its dot into its two runs of digits. */
  lemma DecimalParts(d: seq<char>, f: seq<char>)
    requires forall k :: 0 <= k < |d| ==> IsDigit(d[k])
    requires forall k :: 0 <= k < |f| ==> IsDigit(f[k])
    ensures AllKept(d + ['.'] + f)
    ensures var b := d + ['.'] + f;
            && LeadingDigits(b) == |d| && b[|d|] == '.' && b[..|d|] == d
            && b[|d| + 1..] == f && LeadingDigits(f) == |f| && f[..|f|] == f
  {
    var b := d + ['.'] + f;
    forall k | 0 <= k < |b| ensures Kept(b[k]) {
      if k < |d| {
        assert b[k] == d[k];
      } else if k > |d| {
        assert b[k] == f[k - |d| - 1];
      }
    }
    assert b == d + (['.'] + f);
    assert b[..|d|] == d;
    assert b[|d| + 1..] == f;
    LeadingDigitsRun(d, ['.'] + f);
    LeadingDigitsRun(f, []);
    assert f + [] == f;
  }

  /** `strtod` reads a whole numeral as its value. */
  lemma StrtodWhole(d: seq<char>)
    requires forall k :: 0 <= k < |d| ==> IsDigit(d[k])
    requires |d| >= 1
    ensures AllKept(d)
    ensures Strtod(d) == Some(DigitsValue(d) as real)
  {
    LeadingDigitsRun(d, []);
    assert d + [] == d && d[..|d|] == d;
  }

  /** `$1,234.56` is 1234.56. */
  lemma DollarsExample(v: seq<char>)
    requires v == "$1,234.56"
    ensures AmountOf(v) == Some(1234.56)
  {
    DollarsKept(v);
    DollarsValue("1234", "56");
  }

  lemma DollarsKept(v: seq<char>)
    requires v == "$1,234.56"
    ensures Retain(v, [], false) == Scan("1234" + ['.'] + "56", false)
  {
    var run := "234.56";
    DollarsPrefix(v, run);
    RetainRun(run, [], "1", false);
    assert run + [] == run;
    assert "1" + run == "1234" + ['.'] + "56";
  }

  /** `$` and `,` are passed over, the `1` between them is kept. */
  lemma DollarsPrefix(v: seq<char>, run: seq<char>)
    requires v == "$1,234.56" && run == "234.56"
    ensures Retain(v, [], false) == Retain(run, "1", false)
  {
    var afterOne := [','] + run;
    var afterDollar := ['1'] + afterOne;
    assert v == ['$'] + afterDollar;
    RetainCons('$', afterDollar, [], false);
    RetainCons('1', afterOne, [], false);
    assert [] + ['1'] == "1";
    RetainCons(',', run, "1", false);
  }

  lemma RetainCons(c: char, s: seq<char>, buf: seq<char>, negative: bool)
    requires |buf| + 1 < AmountBufLen
    ensures Retain([c] + s, buf, negative)
            == if SetsNegative(c) then Retain(s, buf, true)
               else if Kept(c) then Retain(s, buf + [c], negative)
               else Retain(s, buf, negative)
  {
    assert ([c] + s)[0] == c && ([c] + s)[1..] == s;
  }

  lemma DollarsValue(d: seq<char>, f: seq<char>)
    requires d == "1234" && f == "56"
    ensures Strtod(d + ['.'] + f) == Some(1234.56)
  {
    StrtodDecimal(d, f);
    DigitsSnoc("123", '4');
    DigitsSnoc("12", '3');
    DigitsSnoc("1", '2');
    DigitsSnoc("5", '6');
    assert "123" + ['4'] == d && "5" + ['6'] == f;
    assert Pow10(2) == 100;
  }

  /** `(500)` is -500: the parenthesis marks it negative. */
  lemma ParenthesesExample(v: seq<char>)
    requires v == "(500)"
    ensures AmountOf(v) == Some(-500.0)
  {
    ParenthesesKept(v);
    StrtodWhole("500");
    DigitsSnoc("50", '0');
    DigitsSnoc("5", '0');
    assert "50" + ['0'] == "500" && "5" + ['0'] == "50";
  }

  lemma ParenthesesKept(v: seq<char>)
    requires v == "(500)"
    ensures Retain(v, [], false) == Scan("500", true)
  {
    var run := "500";
    assert v == ['('] + (run + [')']);
    RetainRun(run, [')'], [], true);
    assert [] + run == run;
  }

  /** `-12.5` is -12.5. */
  lemma MinusExample(v: seq<char>)
    requires v == "-12.5"
    ensures AmountOf(v) == Some(-12.5)
  {
    MinusKept(v, "12", "5");
    MinusValue("12", "5");
  }

  lemma MinusKept(v: seq<char>, d: seq<char>, f: seq<char>)
    requires v == "-12.5" && d == "12" && f == "5"
    ensures Retain(v, [], false) == Scan(d + ['.'] + f, true)
  {
    var run := d + ['.'] + f;
    assert v == ['-'] + (run + []);
    RetainRun(run, [], [], true);
    assert [] + run == run;
  }

  lemma MinusValue(d: seq<char>, f: seq<char>)
    requires d == "12" && f == "5"
    ensures Strtod(d + ['.'] + f) == Some(12.5)
  {
    StrtodDecimal(d, f);
    DigitsSnoc("1", '2');
    assert "1" + ['2'] == d;
    assert Pow10(1) == 10;
  }

  /** `n/a` is refused: no digit is kept. */
  lemma NotAvailableExample(v: seq<char>)
    requires v == "n/a"
    ensures AmountOf(v).None?
  {
    assert v[0..] == v;
    RetainAt(v, 0, [], false);
    RetainAt(v, 1, [], false);
    RetainAt(v, 2, [], false);
    assert v[3..] == [];
  }

  /** `..5` keeps a digit, yet `strtod` reads nothing from `..5`, so it is refused. */
  lemma DoubleDotExample(v: seq<char>)
    requires v == "..5"
    ensures HasDigit(Retain(v, [], false).buf)
    ensures AmountOf(v).None?
  {
    assert v == v + [];
    RetainRun(v, [], [], false);
    assert [] + v == v;
    assert IsDigit(v[2]);
  }
}
