/** Facts about text that several components share. */
module Text {
  import opened Options

  lemma {:induction false} FirstSeparatorNotLater(x: string, u: string, y: string, v: string, c: char)
    requires c !in x && x + [c] + u == y + [c] + v
    ensures |x| <= |y|
  {
    assert (y + [c] + v)[|y|] == c;
    assert forall i | 0 <= i < |x| :: (x + [c] + u)[i] == x[i];
  }

  /** Text splits in only one way at its first separator. */
  lemma {:induction false} FirstSeparatorUnique(x: string, u: string, y: string, v: string, c: char)
    requires c !in x && c !in y && x + [c] + u == y + [c] + v
    ensures x == y && u == v
  {
    FirstSeparatorNotLater(x, u, y, v, c);
    FirstSeparatorNotLater(y, v, x, u, c);
    assert (x + [c] + u)[..|x|] == x && (y + [c] + v)[..|y|] == y;
    assert (x + [c] + u)[|x| + 1..] == u && (y + [c] + v)[|y| + 1..] == v;
  }

  lemma {:induction false} LastSeparatorNotEarlier(x: string, u: string, y: string, v: string, c: char)
    requires c !in u && x + [c] + u == y + [c] + v
    ensures |y| <= |x|
  {
    assert (y + [c] + v)[|y|] == c;
    assert forall i | |x| < i < |x| + 1 + |u| :: (x + [c] + u)[i] == u[i - |x| - 1];
  }

  /** And in only one way at its last. */
  lemma {:induction false} LastSeparatorUnique(x: string, u: string, y: string, v: string, c: char)
    requires c !in u && c !in v && x + [c] + u == y + [c] + v
    ensures x == y && u == v
  {
    LastSeparatorNotEarlier(x, u, y, v, c);
    LastSeparatorNotEarlier(y, v, x, u, c);
    assert (x + [c] + u)[..|x|] == x && (y + [c] + v)[..|y|] == y;
    assert (x + [c] + u)[|x| + 1..] == u && (y + [c] + v)[|y| + 1..] == v;
  }

  // ------------------------------------------------------------------ searching for a character

  function FirstIndex(s: string, c: char): (i: Option<nat>)
    ensures match i
            case None => c !in s
            case Some(k) => k < |s| && s[k] == c && forall j | 0 <= j < k :: s[j] != c
  {
    if s == [] then None
    else if s[0] == c then Some(0)
    else
      match FirstIndex(s[1..], c)
      case None => assert s == [s[0]] + s[1..]; None
      case Some(k) => Some(k + 1)
  }

  function LastIndex(s: string, c: char): (i: Option<nat>)
    ensures match i
            case None => c !in s
            case Some(k) => k < |s| && s[k] == c && forall j | k < j < |s| :: s[j] != c
  {
    if s == [] then None
    else if s[|s| - 1] == c then Some(|s| - 1)
    else
      match LastIndex(s[..|s| - 1], c)
      case None => assert s == s[..|s| - 1] + [s[|s| - 1]]; None
      case Some(k) => Some(k)
  }

  lemma {:induction false} FirstIndexOf(x: string, c: char, rest: string)
    requires c !in x
    ensures FirstIndex(x + [c] + rest, c) == Some(|x|)
  {
    hide FirstIndex;
    var s := x + [c] + rest;
    assert s[|x|] == c && forall j | 0 <= j < |x| :: s[j] == x[j];
  }

  lemma {:induction false} LastIndexUnique(s: string, c: char, k: nat)
    requires k < |s| && s[k] == c && forall j | k < j < |s| :: s[j] != c
    ensures LastIndex(s, c) == Some(k)
  {
    hide LastIndex;
  }

  lemma {:induction false} LastIndexOf(x: string, c: char, rest: string)
    requires c !in rest
    ensures LastIndex(x + [c] + rest, c) == Some(|x|)
  {
    hide LastIndex;
    var s := x + [c] + rest;
    forall j | |x| < j < |s| ensures s[j] != c {
      assert s[j] == rest[j - |x| - 1];
    }
    LastIndexUnique(s, c, |x|);
  }

  // ------------------------------------------------------------------ decimal numbers

  predicate IsDigit(c: char) {
    '0' <= c <= '9'
  }

  predicate AllDigits(s: string) {
    forall c <- s :: IsDigit(c)
  }

  function DigitValue(c: char): nat
    requires IsDigit(c)
  {
    c as nat - '0' as nat
  }

  function DecimalValue(s: string): nat
    requires AllDigits(s)
  {
    if s == [] then 0 else 10 * DecimalValue(s[..|s| - 1]) + DigitValue(s[|s| - 1])
  }

  /** The text of `%d` for a number that is not negative. */
  function Decimal(n: nat): (s: string)
    ensures s != [] && AllDigits(s)
  {
    var digit := [('0' as nat + n % 10) as char];
    if n < 10 then digit else Decimal(n / 10) + digit
  }

  lemma {:induction false} DecimalRoundTrip(n: nat)
    ensures DecimalValue(Decimal(n)) == n
  {
    if n >= 10 {
      DecimalRoundTrip(n / 10);
      assert Decimal(n)[..|Decimal(n)| - 1] == Decimal(n / 10);
    }
  }

  lemma {:induction false} DecimalInjective(m: nat, n: nat)
    requires Decimal(m) == Decimal(n)
    ensures m == n
  {
    DecimalRoundTrip(m);
    DecimalRoundTrip(n);
  }

  /** White space as the Go library has it, unicode.IsSpace. */
  predicate IsWhiteSpace(c: char) {
    || 9 <= c as int <= 13
    || c as int in {0x20, 0x85, 0xA0, 0x1680, 0x2028, 0x2029, 0x202F, 0x205F, 0x3000}
    || 0x2000 <= c as int <= 0x200A
  }

  // ------------------------------------------------------------------ letter case

  function UpperChar(c: char): char {
    if 'a' <= c <= 'z' then (c as int - 32) as char else c
  }

  function LowerChar(c: char): char {
    if 'A' <= c <= 'Z' then (c as int + 32) as char else c
  }

  function ToUpper(s: string): string {
    seq(|s|, i requires 0 <= i < |s| => UpperChar(s[i]))
  }

  function ToLower(s: string): string {
    seq(|s|, i requires 0 <= i < |s| => LowerChar(s[i]))
  }
}
