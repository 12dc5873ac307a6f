/** Regular expressions, and the validator's patterns as the predicates that model them. */
module Regex {
  import opened Options
  import opened Text
  import opened Validation

  datatype Regex =
    | Exactly(text: string)
    | One(allowed: char -> bool)
    | Then(first: Regex, second: Regex)
    | Maybe(inner: Regex)
    | Many(inner: Regex)

  /** The whole text matches. */
  ghost predicate Matches(r: Regex, s: string)
    decreases r, |s|
  {
    match r
    case Exactly(text) => s == text
    case One(allowed) => |s| == 1 && allowed(s[0])
    case Then(first, second) => exists k | 0 <= k <= |s| :: Matches(first, s[..k]) && Matches(second, s[k..])
    case Maybe(inner) => s == [] || Matches(inner, s)
    case Many(inner) => s == [] || exists k | 0 < k <= |s| :: Matches(inner, s[..k]) && Matches(r, s[k..])
  }

  // [a-z0-9]([inner]*[a-z0-9])?
  function Bounded(inner: char -> bool): Regex {
    Then(One(IsAlnum), Maybe(Then(Many(One(inner)), One(IsAlnum))))
  }

  function DNSLabel(): Regex {
    Bounded(IsLabelChar)
  }

  predicate IsDot(c: char) {
    c == '.'
  }

  // (\.label)*
  function MoreLabels(): Regex {
    Many(Then(One(IsDot), DNSLabel()))
  }

  function DNSName(): Regex {
    Then(DNSLabel(), MoreLabels())
  }

  function ServiceName(): Regex {
    Then(Exactly("svc:"), DNSLabel())
  }

  // :[0-9]+
  function Port(): Regex {
    Then(Exactly([':']), Then(One(IsDigit), Many(One(IsDigit))))
  }

  // host:[0-9]+
  function Address(): Regex {
    Then(Bounded(IsHostChar), Port())
  }

  lemma {:induction false} ManyOfOne(allowed: char -> bool, s: string)
    ensures Matches(Many(One(allowed)), s) <==> forall c <- s :: allowed(c)
    decreases |s|
  {
    var r := Many(One(allowed));
    if s != [] {
      ManyOfOne(allowed, s[1..]);
      assert s == [s[0]] + s[1..];
      if forall c <- s :: allowed(c) {
        assert Matches(One(allowed), s[..1]) && Matches(r, s[1..]);
      }
      if Matches(r, s) {
        var k :| 0 < k <= |s| && Matches(One(allowed), s[..k]) && Matches(r, s[k..]);
        assert k == 1;
      }
    }
  }

  lemma {:induction false} OneThen(allowed: char -> bool, r: Regex, s: string)
    ensures Matches(Then(One(allowed), r), s) <==> s != [] && allowed(s[0]) && Matches(r, s[1..])
  {
    if s != [] && allowed(s[0]) && Matches(r, s[1..]) {
      assert Matches(One(allowed), s[..1]);
    }
    if Matches(Then(One(allowed), r), s) {
      var k :| 0 <= k <= |s| && Matches(One(allowed), s[..k]) && Matches(r, s[k..]);
      assert k == 1;
    }
  }

  lemma {:induction false} ThenOne(r: Regex, allowed: char -> bool, s: string)
    ensures Matches(Then(r, One(allowed)), s) <==> s != [] && allowed(s[|s| - 1]) && Matches(r, s[..|s| - 1])
  {
    if s != [] && allowed(s[|s| - 1]) && Matches(r, s[..|s| - 1]) {
      assert Matches(One(allowed), s[|s| - 1..]);
    }
    if Matches(Then(r, One(allowed)), s) {
      var k :| 0 <= k <= |s| && Matches(r, s[..k]) && Matches(One(allowed), s[k..]);
      assert k == |s| - 1;
    }
  }

  lemma {:induction false} BoundedIsPattern(inner: char -> bool, s: string)
    requires forall c | IsAlnum(c) :: inner(c)
    ensures Matches(Bounded(inner), s) <==> IsBounded(s, inner)
  {
    OneThen(IsAlnum, Maybe(Then(Many(One(inner)), One(IsAlnum))), s);
    if s != [] {
      var t := s[1..];
      ThenOne(Many(One(inner)), IsAlnum, t);
      if t != [] { ManyOfOne(inner, t[..|t| - 1]); }
      assert Matches(Maybe(Then(Many(One(inner)), One(IsAlnum))), t) <==>
        t == [] || Matches(Then(Many(One(inner)), One(IsAlnum)), t);
      hide Matches;
      if t == [] {
        assert s == [s[0]];
      } else {
        assert s == [s[0]] + t[..|t| - 1] + [s[|s| - 1]];
      }
    }
  }

  /** The pattern of a VIP service name. */
  lemma {:induction false} ServiceNameIsPattern(s: string)
    ensures Matches(ServiceName(), s) <==> IsServiceName(s)
  {
    if IsServiceName(s) {
      BoundedIsPattern(IsLabelChar, s[4..]);
      assert Matches(Exactly("svc:"), s[..4]);
    }
    if Matches(ServiceName(), s) {
      var k :| 0 <= k <= |s| && Matches(Exactly("svc:"), s[..k]) && Matches(DNSLabel(), s[k..]);
      BoundedIsPattern(IsLabelChar, s[k..]);
      assert k == 4;
    }
  }

  lemma {:induction false} ColonThen(r: Regex, s: string)
    ensures Matches(Then(Exactly([':']), r), s) <==> s != [] && s[0] == ':' && Matches(r, s[1..])
  {
    if s != [] && s[0] == ':' && Matches(r, s[1..]) {
      assert Matches(Exactly([':']), s[..1]);
    }
    if Matches(Then(Exactly([':']), r), s) {
      var k :| 0 <= k <= |s| && Matches(Exactly([':']), s[..k]) && Matches(r, s[k..]);
      assert k == 1 && s[0] == s[..k][0];
    }
  }

  lemma {:induction false} ThenSplits(first: Regex, second: Regex, s: string)
    ensures Matches(Then(first, second), s) <==>
              exists k | 0 <= k <= |s| :: Matches(first, s[..k]) && Matches(second, s[k..])
  {
  }

  /** The pattern of a backend's address: the host has no colon, so the first one ends it. */
  lemma {:induction false} AddressIsPattern(s: string)
    ensures Matches(Address(), s) <==> IsAddress(s)
  {
    ThenSplits(Bounded(IsHostChar), Port(), s);
    hide Matches, IsBounded, Bounded, Port, FirstIndex;
    if IsAddress(s) {
      AddressSplits(s, FirstIndex(s, ':').value);
    }
    if Matches(Address(), s) {
      var k :| 0 <= k <= |s| && Matches(Bounded(IsHostChar), s[..k]) && Matches(Port(), s[k..]);
      AddressSplits(s, k);
      HostHasNoColon(s[..k]);
      assert s == s[..k] + [':'] + s[k + 1..];
      FirstIndexOf(s[..k], ':', s[k + 1..]);
    }
  }

  lemma {:induction false} AddressSplits(s: string, k: nat)
    requires k <= |s|
    ensures Matches(Bounded(IsHostChar), s[..k]) && Matches(Port(), s[k..])
            <==> IsBounded(s[..k], IsHostChar) && k + 1 < |s| && s[k] == ':' && AllDigits(s[k + 1..])
  {
    hide Matches, IsBounded;
    BoundedIsPattern(IsHostChar, s[..k]);
    ColonThen(Then(One(IsDigit), Many(One(IsDigit))), s[k..]);
    if k < |s| {
      assert s[k..][1..] == s[k + 1..];
      PortIsPattern(s[k + 1..]);
    }
  }

  lemma {:induction false} HostHasNoColon(s: string)
    requires IsBounded(s, IsHostChar)
    ensures ':' !in s
  {
  }

  lemma {:induction false} PortIsPattern(s: string)
    ensures Matches(Then(One(IsDigit), Many(One(IsDigit))), s) <==> s != [] && AllDigits(s)
  {
    OneThen(IsDigit, Many(One(IsDigit)), s);
    if s != [] {
      ManyOfOne(IsDigit, s[1..]);
      assert s == [s[0]] + s[1..];
    }
  }

  lemma {:induction false} LabelHasNoDot(s: string)
    requires IsDNSLabel(s)
    ensures '.' !in s
  {
  }

  /** The pattern of a DNS name: labels have no dot, so the first dot ends the first label. */
  lemma {:induction false} DNSNameIsPattern(s: string)
    ensures Matches(DNSName(), s) <==> IsDNSName(s)
    decreases |s|
  {
    hide IsDNSLabel;
    if IsDNSName(s) { DNSNameMatches(s); }
    if Matches(DNSName(), s) { MatchIsDNSName(s); }
  }

  lemma {:induction false} DNSNameMatches(s: string)
    requires IsDNSName(s)
    ensures Matches(DNSName(), s)
    decreases |s|
  {
    hide IsDNSLabel, DNSLabel, Matches, FirstIndex;
    match FirstIndex(s, '.')
    case None =>
      LabelIsPattern(s);
      assert s[..|s|] == s;
      NameMatches(s, |s|);
    case Some(k) =>
      var rest := s[k + 1..];
      DNSNameMatches(rest);
      var m := NameSplit(rest);
      LabelIsPattern(s[..k]);
      MoreLabelsMatch(s[k..], m);
      NameMatches(s, k);
  }

  lemma {:induction false} LabelIsPattern(s: string)
    ensures Matches(DNSLabel(), s) <==> IsDNSLabel(s)
  {
    hide Matches;
    BoundedIsPattern(IsLabelChar, s);
  }

  lemma {:induction false} NameSplit(s: string) returns (k: nat)
    requires Matches(DNSName(), s)
    ensures k <= |s| && Matches(DNSLabel(), s[..k]) && Matches(MoreLabels(), s[k..])
  {
    hide DNSLabel, MoreLabels;
    k :| 0 <= k <= |s| && Matches(DNSLabel(), s[..k]) && Matches(MoreLabels(), s[k..]);
  }

  lemma {:induction false} NameMatches(s: string, k: nat)
    requires k <= |s| && Matches(DNSLabel(), s[..k]) && (k == |s| || Matches(MoreLabels(), s[k..]))
    ensures Matches(DNSName(), s)
  {
    hide DNSLabel;
    assert Matches(MoreLabels(), s[k..]);
    hide MoreLabels;
  }

  lemma {:induction false} MoreLabelsMatch(s: string, m: nat)
    requires s != [] && s[0] == '.' && m <= |s| - 1
    requires Matches(DNSLabel(), s[1..][..m]) && Matches(MoreLabels(), s[1..][m..])
    ensures Matches(MoreLabels(), s)
  {
    hide DNSLabel;
    assert s[..m + 1][1..] == s[1..][..m] && s[m + 1..] == s[1..][m..];
    OneThen(IsDot, DNSLabel(), s[..m + 1]);
  }

  lemma {:induction false} MoreLabelsSplit(s: string) returns (m: nat)
    requires Matches(MoreLabels(), s) && s != []
    ensures s[0] == '.' && m <= |s| - 1 && Matches(DNSLabel(), s[1..][..m]) && Matches(MoreLabels(), s[1..][m..])
  {
    hide DNSLabel;
    var k :| 0 < k <= |s| && Matches(Then(One(IsDot), DNSLabel()), s[..k]) && Matches(MoreLabels(), s[k..]);
    OneThen(IsDot, DNSLabel(), s[..k]);
    m := k - 1;
    assert s[..k][1..] == s[1..][..m] && s[k..] == s[1..][m..];
  }

  lemma {:induction false} MatchIsDNSName(s: string)
    requires Matches(DNSName(), s)
    ensures IsDNSName(s)
    decreases |s|
  {
    var k := NameSplit(s);
    LabelIsPattern(s[..k]);
    LabelHasNoDot(s[..k]);
    hide IsDNSLabel, DNSLabel;
    if k == |s| {
      assert s[..k] == s;
    } else {
      var m := MoreLabelsSplit(s[k..]);
      assert s[k..][1..] == s[k + 1..] && s == s[..k] + ['.'] + s[k + 1..];
      FirstIndexOf(s[..k], '.', s[k + 1..]);
      NameMatches(s[k + 1..], m);
      MatchIsDNSName(s[k + 1..]);
    }
  }
}
