/** The extension server's hand-written address and port parsers, against the validator and the controller. */
module Decoders {
  import opened Options
  import opened Text
  import opened Ports
  import opened Validation

  const MAX_UINT32: nat := 0xFFFF_FFFF
  const DEFAULT_PORT: nat := 80

  /** The white space that Sscanf skips before a number: all but a line break. */
  predicate IsSkipped(c: char) {
    IsWhiteSpace(c) && c != '\n'
  }

  function SkipBlanks(s: string): string {
    if s != [] && IsSkipped(s[0]) then SkipBlanks(s[1..]) else s
  }

  function DigitRun(s: string): (k: nat)
    ensures k <= |s| && AllDigits(s[..k]) && (k < |s| ==> !IsDigit(s[k]))
  {
    if s != [] && IsDigit(s[0]) then
      var k := DigitRun(s[1..]) + 1;
      assert s[..k] == [s[0]] + s[1..][..k - 1];
      k
    else 0
  }

  /** Sscanf("%d") into a uint32: blanks, then the longest run of digits; what follows is ignored. */
  function ScanUint32(s: string): (port: Option<nat>)
    ensures port.Some? ==> port.value <= MAX_UINT32
  {
    var t := SkipBlanks(s);
    var digits := t[..DigitRun(t)];
    if digits == [] || DecimalValue(digits) > MAX_UINT32 then None else Some(DecimalValue(digits))
  }

  lemma {:induction false} DigitRunOfDigits(s: string)
    requires AllDigits(s)
    ensures DigitRun(s) == |s|
  {
    if s != [] {
      assert IsDigit(s[0]);
      DigitRunOfDigits(s[1..]);
    }
  }

  lemma {:induction false} ScanDigits(s: string)
    requires s != [] && AllDigits(s)
    ensures ScanUint32(s) == if DecimalValue(s) <= MAX_UINT32 then Some(DecimalValue(s)) else None
  {
    assert IsDigit(s[0]) && SkipBlanks(s) == s;
    DigitRunOfDigits(s);
    assert s[..|s|] == s;
  }

  lemma {:induction false} ScanNothing(s: string)
    requires s != [] && !IsSkipped(s[0]) && !IsDigit(s[0])
    ensures ScanUint32(s) == None
  {
  }

  /** No digit can follow the run of digits. */
  predicate EndsNumber(rest: string) {
    rest == [] || !IsDigit(rest[0])
  }

  lemma {:induction false} DigitRunUpTo(digits: string, rest: string)
    requires AllDigits(digits) && EndsNumber(rest)
    ensures DigitRun(digits + rest) == |digits|
  {
    var s := digits + rest;
    if digits == [] {
      assert s == rest;
    } else {
      assert IsDigit(digits[0]) && s[1..] == digits[1..] + rest;
      DigitRunUpTo(digits[1..], rest);
    }
  }

  /** A number in front of other text is read, and that text ignored. */
  lemma {:induction false} ScanPrefix(digits: string, rest: string)
    requires digits != [] && AllDigits(digits) && EndsNumber(rest)
    ensures ScanUint32(digits + rest) ==
              if DecimalValue(digits) <= 0xFFFF_FFFF then Some(DecimalValue(digits)) else None
  {
    assert IsDigit(digits[0]) && (digits + rest)[0] == digits[0];
    assert SkipBlanks(digits + rest) == digits + rest;
    DigitRunUpTo(digits, rest);
    assert (digits + rest)[..|digits|] == digits;
  }

  /** Blanks in front of a number do not matter, line breaks apart. */
  lemma {:induction false} BlanksAreSkipped(blanks: string, s: string)
    requires forall c <- blanks :: IsWhiteSpace(c) && c != '\n'
    ensures ScanUint32(blanks + s) == ScanUint32(s)
  {
    hide IsWhiteSpace;
    if blanks == [] {
      assert blanks + s == s;
    } else {
      assert blanks[0] in blanks && (blanks + s)[0] == blanks[0] && (blanks + s)[1..] == blanks[1..] + s;
      BlanksAreSkipped(blanks[1..], s);
      assert SkipBlanks(blanks + s) == SkipBlanks(blanks[1..] + s);
    }
  }

  // ------------------------------------------------------------------ addresses

  /** Host and port of an address: split at the last colon; port 80 where there is none that can be read. */
  function AddressOf(addr: string): (string, nat) {
    match LastIndex(addr, ':')
    case None => (addr, DEFAULT_PORT)
    case Some(k) => (addr[..k], ScanUint32(addr[k + 1..]).GetOr(DEFAULT_PORT))
  }

  method ParseAddress(addr: string) returns (host: string, port: nat)
    ensures (host, port) == AddressOf(addr)
  {
    if addr == "" {
      return "", DEFAULT_PORT;
    }
    var lastColon := -1;
    var i := |addr| - 1;
    while i >= 0
      invariant -1 <= i < |addr|
      invariant forall j | i < j < |addr| :: addr[j] != ':'
      invariant lastColon == -1
    {
      if addr[i] == ':' {
        lastColon := i;
        break;
      }
      i := i - 1;
    }
    if lastColon == -1 {
      return addr, DEFAULT_PORT;
    }
    LastIndexUnique(addr, ':', lastColon);
    host := addr[..lastColon];
    var portStr := addr[lastColon + 1..];
    port := ScanUint32(portStr).GetOr(DEFAULT_PORT);
  }

  /** Parsing undoes printing, for every host, colons included, and every port of 32 bits. */
  lemma {:induction false} ParseInvertsPrint(host: string, port: nat)
    requires port <= MAX_UINT32
    ensures AddressOf(host + ":" + Decimal(port)) == (host, port)
  {
    var digits := Decimal(port);
    var addr := host + ":" + digits;
    DigitsHaveNoColon(digits);
    LastIndexOf(host, ':', digits);
    assert addr[..|host|] == host && addr[|host| + 1..] == digits;
    ScanDigits(digits);
    DecimalRoundTrip(port);
  }

  /** The number after the last colon is read up to where it ends; one that does not fit becomes port 80. */
  lemma {:induction false} LastNumberDecides(host: string, digits: string, rest: string)
    requires digits != [] && AllDigits(digits) && EndsNumber(rest) && ':' !in rest
    ensures AddressOf(host + ":" + (digits + rest)) ==
              (host, if DecimalValue(digits) <= 0xFFFF_FFFF then DecimalValue(digits) else 80)
  {
    var text := digits + rest;
    var addr := host + ":" + text;
    DigitsHaveNoColon(digits);
    LastIndexOf(host, ':', text);
    assert addr[..|host|] == host && addr[|host| + 1..] == text;
    ScanPrefix(digits, rest);
  }

  /** Text without a number after the last colon, and text without a colon, means port 80. */
  lemma {:induction false} NoNumberMeansDefault(host: string, text: string)
    requires ':' !in text && (text == [] || (!IsSkipped(text[0]) && !IsDigit(text[0])))
    ensures AddressOf(host + ":" + text) == (host, 80) && AddressOf(text) == (text, 80)
  {
    var addr := host + ":" + text;
    LastIndexOf(host, ':', text);
    assert addr[..|host|] == host && addr[|host| + 1..] == text;
    if text != [] { ScanNothing(text); }
  }

  lemma {:induction false} DigitsHaveNoColon(s: string)
    requires AllDigits(s)
    ensures ':' !in s
  {
  }

  /** A bare host survives exactly when it has no colon: a bare IPv6 address does not. */
  lemma {:induction false} BareHostSurvives(host: string)
    ensures AddressOf(host).0 == host <==> ':' !in host
  {
  }

  // ------------------------------------------------------------------ VIP ports

  function PortOf(portStr: string): nat {
    var colon := FirstIndex(portStr, ':');
    var part := if colon.Some? && colon.value + 1 < |portStr| then ScanUint32(portStr[colon.value + 1..]) else None;
    if part.Some? then part.value else ScanUint32(portStr).GetOr(DEFAULT_PORT)
  }

  method ParsePortFromVIPPortString(portStr: string) returns (port: nat)
    ensures port == PortOf(portStr)
  {
    if portStr == "" {
      return DEFAULT_PORT;
    }
    var colonIndex := -1;
    for i := 0 to |portStr|
      invariant colonIndex == -1 && forall j | 0 <= j < i :: portStr[j] != ':'
    {
      if portStr[i] == ':' {
        colonIndex := i;
        break;
      }
    }
    assert FirstIndex(portStr, ':') == if colonIndex == -1 then None else Some(colonIndex);
    if colonIndex != -1 && colonIndex < |portStr| - 1 {
      var part := ScanUint32(portStr[colonIndex + 1..]);
      if part.Some? {
        return part.value;
      }
    }
    port := ScanUint32(portStr).GetOr(DEFAULT_PORT);
  }

  /** The number after the first colon is read up to where it ends, whatever colons follow. */
  lemma {:induction false} FirstNumberDecides(protocol: string, digits: string, rest: string)
    requires ':' !in protocol && digits != [] && AllDigits(digits) && EndsNumber(rest)
    requires DecimalValue(digits) <= 0xFFFF_FFFF
    ensures PortOf(protocol + ":" + (digits + rest)) == DecimalValue(digits)
  {
    var text := digits + rest;
    var portStr := protocol + ":" + text;
    FirstIndexOf(protocol, ':', text);
    hide FirstIndex;
    assert portStr[|protocol| + 1..] == text;
    ScanPrefix(digits, rest);
  }

  /** The text after the colon of a port string the validator accepts. */
  function PortText(names: PortNames, portStr: string): string
    requires IsValidPortFormat(names, portStr)
  {
    SplitOnce(portStr).value.1
  }

  /** Every number the validator accepts is the number that the controller and the extension server decode. */
  lemma {:induction false} DigitPortsAgree(names: PortNames, portStr: string)
    requires IsValidPortFormat(names, portStr)
    requires var text := PortText(names, portStr); text != [] && AllDigits(text)
    ensures var port := DecimalValue(PortText(names, portStr));
            && port <= MAX_PORT
            && ParseInt32(SplitPort(portStr).1) == Some(port)
            && PortOf(portStr) == port
            && SplitPort(portStr).0 in {"TCP", "UDP"}
  {
    var text := PortText(names, portStr);
    assert IsDigit(text[0]);
    ScanDigits(text);
    ProtocolSurvives(SplitOnce(portStr).value.0);
  }

  lemma {:induction false} ProtocolSurvives(protocol: string)
    requires ToLower(protocol) in {"tcp", "udp"}
    ensures ToUpper(protocol) == if ToLower(protocol) == "tcp" then "TCP" else "UDP"
    ensures protocol != [] && !IsSkipped(protocol[0]) && !IsDigit(protocol[0])
  {
    var lower := ToLower(protocol);
    assert |protocol| == 3 && lower[0] == LowerChar(protocol[0])
      && lower[1] == LowerChar(protocol[1]) && lower[2] == LowerChar(protocol[2]);
  }

  /** The port string is one that the validator accepts, with a number after its colon. */
  predicate IsNumbered(names: PortNames, portStr: string) {
    && IsValidPortFormat(names, portStr)
    && PortText(names, portStr) != [] && AllDigits(PortText(names, portStr))
  }

  lemma {:induction false} NumberedDecodes(names: PortNames, ports: seq<string>, i: nat)
    requires i < |ports| && IsNumbered(names, ports[i])
    ensures Decodes(ports, i) && PortOf(ports[i]) == DecimalValue(PortText(names, ports[i])) <= MAX_PORT
    ensures DecodePort(i, ports[i]) ==
              Some(PortMapping(PortName(i), PortOf(ports[i]), SplitPort(ports[i]).0, None))
  {
    DigitPortsAgree(names, ports[i]);
    hide ParseInt32, PortOf, SplitPort, PortName, IsValidPortFormat;
  }

  /** Of accepted numbers no mapping is dropped, and each has the port that the extension server reads. */
  lemma {:induction false} NoNumberDropped(names: PortNames, ports: seq<string>)
    requires ports != [] && forall port <- ports :: IsNumbered(names, port)
    ensures |MappingsOf(ports)| == |ports|
    ensures forall i: nat | i < |ports| ::
              MappingsOf(ports)[i] == PortMapping(PortName(i), PortOf(ports[i]), SplitPort(ports[i]).0, None)
              && PortOf(ports[i]) <= MAX_PORT
  {
    hide DecodePort, PortOf, SplitPort, PortName, IsNumbered, Decodes;
    forall i: nat | i < |ports|
      ensures Decodes(ports, i) && PortOf(ports[i]) <= MAX_PORT
      ensures DecodePort(i, ports[i]) == Some(PortMapping(PortName(i), PortOf(ports[i]), SplitPort(ports[i]).0, None))
    {
      assert ports[i] in ports;
      NumberedDecodes(names, ports, i);
    }
    AllDecodable(ports, |ports|);
    hide Decodable;
  }

  /** Whether the controller keeps the port string and decodes the number that the extension server decodes. */
  predicate Agree(portStr: string) {
    ParseInt32(SplitPort(portStr).1) == Some(PortOf(portStr))
  }

  /**
   Over everything the validator accepts, the two decoders agree exactly on numbers without
   a sign and on "+80": an empty or named port is dropped by the controller, and the
   extension server reads any signed number as port 80.
   */
  lemma {:induction false} DecodersAgreeExactly(names: PortNames, portStr: string)
    requires IsValidPortFormat(names, portStr)
    ensures var text := PortText(names, portStr);
            Agree(portStr) <==>
              || (text != [] && AllDigits(text))
              || (|text| > 1 && text[0] == '+' && AllDigits(text[1..]) && DecimalValue(text[1..]) == DEFAULT_PORT)
  {
    var (protocol, text) := SplitOnce(portStr).value;
    if text != [] && AllDigits(text) {
      DigitPortsAgree(names, portStr);
    } else if text != [] && text[0] in {'+', '-'} {
      ProtocolSurvives(protocol);
      ScanNothing(text);
      ScanNothing(portStr);
      assert PortOf(portStr) == DEFAULT_PORT;
    } else {
      assert ParseInt32(text) == None;
    }
  }

  /** So every other signed port is accepted, and then decoded in two ways. */
  lemma {:induction false} SignedPortsDiffer(protocol: string, port: nat)
    requires ToLower(protocol) in {"tcp", "udp"} && port <= MAX_PORT && port != DEFAULT_PORT
    ensures var portStr := protocol + [':'] + (['+'] + Decimal(port));
            IsValidPortFormat({}, portStr) && !Agree(portStr)
  {
    var digits := Decimal(port);
    var text := ['+'] + digits;
    ProtocolHasNoColon(protocol);
    DigitsHaveNoColon(digits);
    SplitAtOnlyColon(protocol, text);
    DecimalRoundTrip(port);
    assert text[1..] == digits;
    hide SplitOnce, ToLower, DecimalValue, Decimal, Agree;
    DecodersAgreeExactly({}, protocol + [':'] + text);
  }

  lemma {:induction false} SplitAtOnlyColon(x: string, y: string)
    requires ':' !in x && ':' !in y
    ensures SplitOnce(x + [':'] + y) == Some((x, y))
  {
    FirstIndexOf(x, ':', y);
    hide FirstIndex;
    var s := x + [':'] + y;
    assert s[..|x|] == x && s[|x| + 1..] == y;
  }

  lemma {:induction false} ProtocolHasNoColon(protocol: string)
    requires ToLower(protocol) in {"tcp", "udp"}
    ensures ':' !in protocol
  {
    forall c | c in protocol ensures c != ':' {
      var i :| 0 <= i < |protocol| && protocol[i] == c;
      assert ToLower(protocol)[i] == LowerChar(c);
    }
  }
}
