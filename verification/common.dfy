/** Shared vocabulary of the model: optional values, results, money and time,
    the handlers' error messages and order-preserving filtering of a table. */
module Common {

  datatype Option<+T> = None | Some(value: T)

  datatype Result<+T, +E> = Ok(value: T) | Err(error: E)

  /** Every money column is numeric with scale 2, so an amount is an exact
      whole number of cents. */
  type Cents = int

  /** Milliseconds since the epoch, as `Date.now()` gives them. */
  type Timestamp = int

  /** The errors the handlers throw, one constructor per distinct message. */
  datatype Error =
    | ProductNotFound
    | ProductInactive
    | UserNotFound
    | InsufficientBalance
    | UnknownUserId(id: int)      // "User with id N not found"
    | UnknownProfileId(id: int)   // "User with ID N not found"
    | EmailTaken
    | InvalidCredentials

  /** The text of the thrown `Error`. */
  function Message(e: Error): string
  {
    match e
    case ProductNotFound => "Product not found"
    case ProductInactive => "Product is not active"
    case UserNotFound => "User not found"
    case InsufficientBalance => "Insufficient balance"
    case UnknownUserId(id) => "User with id " + IntToString(id) + " not found"
    case UnknownProfileId(id) => "User with ID " + IntToString(id) + " not found"
    case EmailTaken => "User with this email already exists"
    case InvalidCredentials => "Invalid email or password"
  }

  predicate IsDigit(c: char)
  {
    '0' <= c <= '9'
  }

  function DigitChar(d: nat): (c: char)
    requires d < 10
    ensures IsDigit(c) && c as int - '0' as int == d
  {
    ('0' as int + d) as char
  }

  /** Decimal rendering of a natural number, as a template literal prints it. */
  function NatToString(n: nat): (r: string)
    ensures |r| > 0
    ensures forall i :: 0 <= i < |r| ==> IsDigit(r[i])
    ensures n == 0 ==> r == "0"
    ensures n > 0 ==> r[0] != '0'
    ensures |r| > 1 ==> r[0] != '0'
    decreases n
  {
    if n < 10 then [DigitChar(n)] else NatToString(n / 10) + [DigitChar(n % 10)]
  }

  /** The number a string of decimal digits denotes. */
  function DigitsValue(s: string): int
  {
    if s == [] then 0 else DigitsValue(s[..|s| - 1]) * 10 + (s[|s| - 1] as int - '0' as int)
  }

  /** Reading back a printed natural number gives the number. */
  lemma {:induction false} NatToStringValue(n: nat)
    ensures DigitsValue(NatToString(n)) == n
    decreases n
  {
    if n >= 10 {
      NatToStringValue(n / 10);
      var s := NatToString(n);
      assert s[..|s| - 1] == NatToString(n / 10);
    }
  }

  /** A canonical decimal numeral: digits only, no leading zero. */
  predicate Canonical(s: string)
  {
    IsDigits(s) && (|s| > 1 ==> s[0] != '0')
  }

  lemma {:induction false} DigitsValueBounds(s: string)
    requires IsDigits(s)
    ensures DigitsValue(s) >= 0
    ensures s[0] != '0' ==> DigitsValue(s) >= 1
    decreases |s|
  {
    if |s| > 1 {
      DigitsValueBounds(s[..|s| - 1]);
    }
  }

  /** The printed form of `n` is the only canonical numeral denoting `n`,
      so `NatToString` is the decimal printer and no other. */
  lemma {:induction false} CanonicalIsNatToString(s: string, n: nat)
    requires Canonical(s) && DigitsValue(s) == n
    ensures s == NatToString(n)
    decreases |s|
  {
    if |s| > 1 {
      var p := s[..|s| - 1];
      assert p[0] == s[0];
      DigitsValueBounds(p);
      CanonicalIsNatToString(p, DigitsValue(p));
      assert s == p + [s[|s| - 1]];
    } else {
      assert s == [DigitChar(n)];
    }
  }

  /** Decimal rendering of an integer: a minus sign, then the digits. */
  function IntToString(n: int): (r: string)
    ensures |r| > 0
    ensures forall i :: 0 <= i < |r| ==> IsDigit(r[i]) || r[i] == '-'
    ensures IsDigit(r[0]) <==> n >= 0
  {
    if n < 0 then "-" + NatToString(-n) else NatToString(n)
  }

  /** An integer prints as its canonical numeral, after a minus sign when
      it is negative. */
  lemma IntToStringValue(n: int)
    ensures n >= 0 ==> Canonical(IntToString(n)) && DigitsValue(IntToString(n)) == n
    ensures n < 0 ==>
              var r := IntToString(n);
              r[0] == '-' && Canonical(r[1..]) && r[1] != '0' && DigitsValue(r[1..]) == -n
  {
    if n >= 0 {
      NatToStringValue(n);
    } else {
      NatToStringValue(-n);
      assert IntToString(n)[1..] == NatToString(-n);
    }
  }

  /** Different numbers print differently. */
  lemma IntToStringInjective(a: int, b: int)
    requires IntToString(a) == IntToString(b)
    ensures a == b
  {
    if a < 0 {
      assert NatToString(-a) == IntToString(a)[1..] == IntToString(b)[1..] == NatToString(-b);
      NatToStringValue(-a);
      NatToStringValue(-b);
    } else {
      NatToStringValue(a);
      NatToStringValue(b);
    }
  }

  /** `prefix`, a number, `_`, a number: the shape `^prefix-?\d+_-?\d+$`
      of the generated tokens and references. */
  function Pair(prefix: string, a: int, b: int): string
  {
    prefix + IntToString(a) + "_" + IntToString(b)
  }

  predicate IsDigits(s: string)
  {
    |s| > 0 && forall i :: 0 <= i < |s| ==> IsDigit(s[i])
  }

  /** `s` matches `^prefix\d+_\d+$`. */
  predicate MatchesPrefixDigitsPair(s: string, prefix: string)
  {
    |prefix| <= |s| && s[..|prefix|] == prefix &&
    exists k :: |prefix| < k < |s| && s[k] == '_' && IsDigits(s[|prefix|..k]) && IsDigits(s[k + 1..])
  }

  lemma PairMatches(prefix: string, a: int, b: int)
    requires a >= 0 && b >= 0
    ensures MatchesPrefixDigitsPair(Pair(prefix, a, b), prefix)
  {
    var s, x, y := Pair(prefix, a, b), IntToString(a), IntToString(b);
    var k := |prefix| + |x|;
    assert s[..|prefix|] == prefix;
    assert s[|prefix|..k] == x;
    assert s[k + 1..] == y;
  }

  /** A pair identifies both of its numbers. */
  lemma PairInjective(prefix: string, a: int, b: int, c: int, d: int)
    requires Pair(prefix, a, b) == Pair(prefix, c, d)
    ensures a == c && b == d
  {
    SplitAtUnderscore(prefix, IntToString(a), IntToString(b), IntToString(c), IntToString(d));
    IntToStringInjective(a, c);
    IntToStringInjective(b, d);
  }

  predicate NoUnderscore(x: string)
  {
    forall i :: 0 <= i < |x| ==> x[i] != '_'
  }

  /** Two strings that start alike and carry one `_`-free field before a
      `_` agree on that field and on the rest. */
  lemma SplitAtUnderscore(p: string, x: string, y: string, x': string, y': string)
    requires p + x + "_" + y == p + x' + "_" + y'
    requires NoUnderscore(x) && NoUnderscore(x')
    ensures x == x' && y == y'
  {
    var s, s' := p + x + "_" + y, p + x' + "_" + y';
    var n := |p|;
    if |x| < |x'| {
      CharAt(p, x, y, |x|);
      CharAt(p, x', y', |x|);
      assert false;
    } else if |x'| < |x| {
      CharAt(p, x, y, |x'|);
      CharAt(p, x', y', |x'|);
      assert false;
    }
    assert x == s[n..n + |x|];
    assert x' == s'[n..n + |x'|];
    assert y == s[n + |x| + 1..];
    assert y' == s'[n + |x'| + 1..];
  }

  lemma CharAt(p: string, x: string, y: string, i: nat)
    ensures i < |x| ==> (p + x + "_" + y)[|p| + i] == x[i]
    ensures i == |x| ==> (p + x + "_" + y)[|p| + i] == '_'
  {
  }

  /** The error messages are pairwise distinct, so the message identifies
      the error. */
  lemma MessagesDistinct(e1: Error, e2: Error)
    requires e1 != e2
    ensures Message(e1) != Message(e2)
  {
    if Message(e1) == Message(e2) {
      MessageKey(e1);
      MessageKey(e2);
      if e1.UnknownUserId? && e2.UnknownUserId? {
        Unwrap("User with id ", IntToString(e1.id), IntToString(e2.id), " not found");
        IntToStringInjective(e1.id, e2.id);
      } else if e1.UnknownProfileId? && e2.UnknownProfileId? {
        Unwrap("User with ID ", IntToString(e1.id), IntToString(e2.id), " not found");
        IntToStringInjective(e1.id, e2.id);
      }
    }
  }

  /** The messages the handler tests match. */
  lemma MessageExamples()
    ensures Message(UnknownUserId(999)) == "User with id 999 not found"
    ensures Message(UnknownProfileId(99999)) == "User with ID 99999 not found"
  {
    UnknownUserMessage();
    UnknownProfileMessage();
  }

  lemma UnknownUserMessage()
    ensures Message(UnknownUserId(999)) == "User with id 999 not found"
  {
    Prints999();
  }

  lemma UnknownProfileMessage()
    ensures Message(UnknownProfileId(99999)) == "User with ID 99999 not found"
  {
    Prints99999();
  }

  /** The first twelve characters of a message, which tell the errors apart. */
  function Key(e: Error): string
  {
    match e
    case ProductNotFound => "Product not "
    case ProductInactive => "Product is n"
    case UserNotFound => "User not fou"
    case InsufficientBalance => "Insufficient"
    case UnknownUserId(_) => "User with id"
    case UnknownProfileId(_) => "User with ID"
    case EmailTaken => "User with th"
    case InvalidCredentials => "Invalid emai"
  }

  lemma MessageKey(e: Error)
    ensures |Message(e)| >= 12 && Message(e)[..12] == Key(e)
  {
  }

  lemma Unwrap(p: string, x: string, y: string, q: string)
    requires p + x + q == p + y + q
    ensures x == y
  {
    assert |x| == |y|;
    assert x == (p + x + q)[|p|..|p| + |x|];
    assert y == (p + y + q)[|p|..|p| + |y|];
  }

  /** How JavaScript prints a Number holding `cents / 100`: no fraction
      when it is whole, otherwise the fraction without trailing zeros. */
  function FormatAmount(cents: Cents): (r: string)
    ensures |r| > 0
    ensures cents < 0 ==> r == "-" + FormatAmount(-cents)
    ensures cents >= 0 ==> forall i :: 0 <= i < |r| ==> IsDigit(r[i]) || r[i] == '.'
    ensures cents >= 0 ==> (cents % 100 == 0 <==> '.' !in r)
    ensures cents >= 0 ==> forall i :: 0 <= i < |r| && r[i] == '.' ==> |r| - 3 <= i < |r| - 1 && r[|r| - 1] != '0'
    decreases if cents < 0 then 1 else 0
  {
    if cents < 0 then "-" + FormatAmount(-cents)
    else
      var whole, frac := cents / 100, cents % 100;
      if frac == 0 then NatToString(whole)
      else if frac % 10 == 0 then NatToString(whole) + "." + [DigitChar(frac / 10)]
      else NatToString(whole) + "." + [DigitChar(frac / 10), DigitChar(frac % 10)]
  }

  /** The whole part reads back as the number of whole units, and the
      fraction digits as the remaining cents (one digit counting tens). */
  lemma FormatAmountValue(cents: Cents)
    requires cents >= 0
    ensures var r, w := FormatAmount(cents), NatToString(cents / 100);
      |w| <= |r| && r[..|w|] == w && DigitsValue(w) == cents / 100 &&
      (cents % 100 == 0 ==> r == w) &&
      (cents % 100 != 0 ==>
         |w| < |r| && r[|w|] == '.' &&
         (|r| == |w| + 2 ==> DigitsValue(r[|w| + 1..]) * 10 == cents % 100) &&
         (|r| == |w| + 3 ==> DigitsValue(r[|w| + 1..]) == cents % 100))
  {
    NatToStringValue(cents / 100);
    var r, w := FormatAmount(cents), NatToString(cents / 100);
    var frac := cents % 100;
    if frac != 0 && frac % 10 == 0 {
      assert r == w + "." + [DigitChar(frac / 10)];
      assert r[|w| + 1..] == [DigitChar(frac / 10)];
    } else if frac != 0 {
      var f := [DigitChar(frac / 10), DigitChar(frac % 10)];
      assert r == w + "." + f;
      assert r[|w| + 1..] == f;
      assert f[..1] == [DigitChar(frac / 10)] && f[..1][..0] == [];
      assert DigitsValue(f[..1]) == frac / 10;
    }
  }

  /** The amounts the top-up tests print. */
  lemma FormatAmountExamples()
    ensures FormatAmount(2500000) == "25000"
    ensures FormatAmount(99975) == "999.75"
    ensures FormatAmount(100050) == "1000.5"
    ensures FormatAmount(-150) == "-1.5"
  {
    FormatsWhole();
    FormatsTwoDigits();
    FormatsOneDigit();
    FormatsNegative();
  }

  lemma FormatsWhole()
    ensures FormatAmount(2500000) == "25000"
  {
    Prints25000();
  }

  lemma FormatsTwoDigits()
    ensures FormatAmount(99975) == "999.75"
  {
    Prints999();
  }

  lemma FormatsOneDigit()
    ensures FormatAmount(100050) == "1000.5"
  {
    Prints1000();
  }

  lemma FormatsNegative()
    ensures FormatAmount(-150) == "-1.5"
  {
    assert NatToString(1) == "1";
    assert FormatAmount(150) == "1.5";
  }

  // Decimal renderings of the numbers above, digit by digit.

  lemma Prints99()
    ensures NatToString(99) == "99"
  {
    assert NatToString(9) == "9";
  }

  lemma Prints999()
    ensures NatToString(999) == "999"
  {
    Prints99();
  }

  lemma Prints99999()
    ensures NatToString(99999) == "99999"
  {
    Prints999();
    assert NatToString(9999) == "9999";
  }

  lemma Prints1000()
    ensures NatToString(1000) == "1000"
  {
    assert NatToString(1) == "1";
    assert NatToString(10) == "10";
    assert NatToString(100) == "100";
  }

  lemma Prints25000()
    ensures NatToString(25000) == "25000"
  {
    assert NatToString(2) == "2";
    assert NatToString(25) == "25";
    assert NatToString(250) == "250";
    assert NatToString(2500) == "2500";
  }

  /** The rows of `s` that satisfy `keep`, in table order: a `where` clause. */
  function Filter<T(!new)>(keep: T -> bool, s: seq<T>): (r: seq<T>)
    ensures |r| <= |s|
    ensures forall x :: x in r <==> x in s && keep(x)
    ensures forall x :: multiset(r)[x] == if keep(x) then multiset(s)[x] else 0
  {
    if s == [] then []
    else
      var rest := Filter(keep, s[1..]);
      assert s == [s[0]] + s[1..];
      if keep(s[0]) then [s[0]] + rest else rest
  }
}
