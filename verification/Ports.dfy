/** From a VIP service's port strings to the ports of the proxy's stateful set and service. */
module Ports {
  import opened Options
  import opened Text
  import opened Selections

  const MAX_INT32: nat := 0x7FFF_FFFF

  // Protocol is the upper-cased prefix of the port string; TargetPort is never set by the controller.
  datatype PortMapping = PortMapping(name: string, port: int, protocol: string, targetPort: Option<int>)

  datatype Protocol = TCP | UDP

  datatype ContainerPort = ContainerPort(name: string, containerPort: int, protocol: Protocol)

  datatype ServicePort = ServicePort(name: string, port: int, targetPort: int, protocol: Protocol)

  /** strconv.ParseInt(s, 10, 32): an optional sign and at least one digit, in range. */
  function ParseInt32(s: string): Option<int> {
    var negative := s != [] && s[0] == '-';
    var digits := if negative || (s != [] && s[0] == '+') then s[1..] else s;
    if digits == [] || !AllDigits(digits) then None
    else if negative then
      if DecimalValue(digits) <= MAX_INT32 + 1 then Some(-(DecimalValue(digits) as int)) else None
    else
      if DecimalValue(digits) <= MAX_INT32 then Some(DecimalValue(digits)) else None
  }

  /** The protocol and the port text of a port string; without a colon the protocol is TCP. */
  function SplitPort(portStr: string): (string, string) {
    match FirstIndex(portStr, ':')
    case None => ("TCP", portStr)
    case Some(k) => (ToUpper(portStr[..k]), portStr[k + 1..])
  }

  /** A port string splits at its first colon, whatever follows. */
  lemma {:induction false} SplitAtFirstColon(protocol: string, rest: string)
    requires ':' !in protocol
    ensures SplitPort(protocol + ":" + rest) == (ToUpper(protocol), rest) && SplitPort(protocol) == ("TCP", protocol)
  {
    FirstIndexOf(protocol, ':', rest);
    hide FirstIndex;
    var portStr := protocol + ":" + rest;
    assert portStr[..|protocol|] == protocol && portStr[|protocol| + 1..] == rest;
  }

  /** Of printed numbers, with and without a sign, exactly those of 32 bits are read, each as itself. */
  lemma {:induction false} ParseInvertsDecimal(n: nat)
    ensures ParseInt32(Decimal(n)) == ParseInt32("+" + Decimal(n)) == if n <= 0x7FFF_FFFF then Some(n) else None
    ensures ParseInt32("-" + Decimal(n)) == if n <= 0x8000_0000 then Some(-(n as int)) else None
  {
    var digits := Decimal(n);
    DecimalRoundTrip(n);
    assert IsDigit(digits[0]);
    assert ("+" + digits)[1..] == digits && ("-" + digits)[1..] == digits;
    hide DecimalValue, Decimal;
  }

  function PortName(i: nat): string {
    "port-" + Decimal(i)
  }

  /** What the controller makes of the port string at index `i`. */
  function DecodePort(i: nat, portStr: string): Option<PortMapping> {
    var (protocol, portNum) := SplitPort(portStr);
    match ParseInt32(portNum)
    case None => None
    case Some(port) => Some(PortMapping(PortName(i), port, protocol, None))
  }

  predicate Decodes(vipPorts: seq<string>, i: nat) {
    i < |vipPorts| && DecodePort(i, vipPorts[i]).Some?
  }

  /** The indices below `n` of the port strings that decode, in order. */
  function Decodable(vipPorts: seq<string>, n: nat): (kept: seq<nat>)
    requires n <= |vipPorts|
    ensures AreDecodable(vipPorts, kept, n)
  {
    if n == 0 then []
    else if Decodes(vipPorts, n - 1) then Decodable(vipPorts, n - 1) + [n - 1]
    else Decodable(vipPorts, n - 1)
  }

  predicate AreDecodable(vipPorts: seq<string>, kept: seq<nat>, n: nat) {
    && (forall j | 0 <= j < |kept| :: kept[j] < n && Decodes(vipPorts, kept[j]))
    && (forall j | 1 <= j < |kept| :: kept[j - 1] < kept[j])
  }

  lemma {:induction false} DecodableIncreases(vipPorts: seq<string>, kept: seq<nat>, n: nat, i: nat, j: nat)
    requires AreDecodable(vipPorts, kept, n) && i < j < |kept|
    ensures kept[i] < kept[j]
    decreases j
  {
    if i < j - 1 { DecodableIncreases(vipPorts, kept, n, i, j - 1); }
  }

  /** No port string that decodes is dropped. */
  lemma {:induction false} DecodableIsComplete(vipPorts: seq<string>, n: nat, i: nat)
    requires i < n <= |vipPorts| && Decodes(vipPorts, i)
    ensures i in Decodable(vipPorts, n)
  {
    hide Decodes, AreDecodable;
    var before := Decodable(vipPorts, n - 1);
    if i < n - 1 {
      DecodableIsComplete(vipPorts, n - 1, i);
      var k :| 0 <= k < |before| && before[k] == i;
      assert Decodable(vipPorts, n)[k] == i;
    } else {
      assert Decodable(vipPorts, n)[|before|] == i;
    }
  }

  lemma {:induction false} AllDecodable(vipPorts: seq<string>, n: nat)
    requires n <= |vipPorts| && forall i: nat | i < n :: Decodes(vipPorts, i)
    ensures |Decodable(vipPorts, n)| == n && forall i: nat | i < n :: Decodable(vipPorts, n)[i] == i
  {
    hide Decodes, AreDecodable;
    if n > 0 { AllDecodable(vipPorts, n - 1); }
  }

  const DEFAULT_MAPPING := PortMapping("http", 80, "TCP", None)

  function Decoded(vipPorts: seq<string>, kept: seq<nat>): seq<PortMapping>
    requires AreDecodable(vipPorts, kept, |vipPorts|)
  {
    seq(|kept|, j requires 0 <= j < |kept| =>
      assert Decodes(vipPorts, kept[j]); DecodePort(kept[j], vipPorts[kept[j]]).value)
  }

  /** One mapping for each port string that decodes, in order, or the default if none does. */
  function MappingsOf(vipPorts: seq<string>): seq<PortMapping> {
    var kept := Decodable(vipPorts, |vipPorts|);
    if kept == [] then [DEFAULT_MAPPING] else Decoded(vipPorts, kept)
  }

  /** Which port strings decode: those with a number of 32 bits after the first colon, or without one. */
  function HasNumber(vipPorts: seq<string>): nat -> bool {
    (i: nat) => i < |vipPorts| && ParseInt32(SplitPort(vipPorts[i]).1).Some?
  }

  lemma {:induction false} DecodableAreKept(vipPorts: seq<string>, n: nat)
    requires n <= |vipPorts|
    ensures AreKept(Decodable(vipPorts, n), n, HasNumber(vipPorts))
  {
    hide AreKept, ParseInt32, SplitPort, PortName, AreDecodable;
    if n == 0 {
      assert AreKept([], 0, HasNumber(vipPorts)) by { NothingKept(HasNumber(vipPorts)); }
    } else {
      DecodableAreKept(vipPorts, n - 1);
      KeptExtends(Decodable(vipPorts, n - 1), n - 1, HasNumber(vipPorts));
    }
  }

  /** The mapping made from the port string at `k`. */
  predicate IsMappingOf(mapping: PortMapping, vipPorts: seq<string>, k: nat) {
    && k < |vipPorts|
    && mapping.name == "port-" + Decimal(k)
    && Some(mapping.port) == ParseInt32(SplitPort(vipPorts[k]).1)
    && mapping.protocol == SplitPort(vipPorts[k]).0 && mapping.targetPort == None
  }

  /** The mappings are exactly those of the port strings with a number, in order, or one for http if none has one. */
  lemma {:induction false} MappingsExactly(vipPorts: seq<string>) returns (kept: seq<nat>)
    ensures AreKept(kept, |vipPorts|, HasNumber(vipPorts))
    ensures kept == [] ==> MappingsOf(vipPorts) == [PortMapping("http", 80, "TCP", None)]
    ensures kept != [] ==>
              |MappingsOf(vipPorts)| == |kept|
              && forall j | 0 <= j < |kept| :: IsMappingOf(MappingsOf(vipPorts)[j], vipPorts, kept[j])
  {
    hide AreKept, ParseInt32, SplitPort;
    kept := Decodable(vipPorts, |vipPorts|);
    DecodableAreKept(vipPorts, |vipPorts|);
    hide Decodable;
  }

  lemma {:induction false} DecodedExtends(vipPorts: seq<string>, kept: seq<nat>, i: nat)
    requires AreDecodable(vipPorts, kept, i) && Decodes(vipPorts, i)
    ensures AreDecodable(vipPorts, kept + [i], i + 1)
    ensures Decoded(vipPorts, kept + [i]) == Decoded(vipPorts, kept) + [DecodePort(i, vipPorts[i]).value]
  {
    hide DecodePort;
  }

  method ConvertVIPPortsToPortMappings(vipPorts: seq<string>) returns (portMappings: seq<PortMapping>)
    ensures portMappings == MappingsOf(vipPorts)
  {
    portMappings := [];
    hide ParseInt32, ToUpper, PortName, FirstIndex;
    for i := 0 to |vipPorts|
      invariant portMappings == Decoded(vipPorts, Decodable(vipPorts, i))
    {
      var portStr := vipPorts[i];
      var protocol, portNum := "TCP", "80";
      var colon := FirstIndex(portStr, ':');
      if colon.Some? {
        protocol, portNum := ToUpper(portStr[..colon.value]), portStr[colon.value + 1..];
      } else {
        portNum := portStr;
      }
      var port := ParseInt32(portNum);
      if port.Some? {
        DecodedExtends(vipPorts, Decodable(vipPorts, i), i);
        portMappings := portMappings + [PortMapping(PortName(i), port.value, protocol, None)];
      }
    }
    if portMappings == [] {
      portMappings := [DEFAULT_MAPPING];
    }
  }

  /** No two mappings share a name, whatever the port strings are. */
  lemma {:induction false} MappingNamesDistinct(vipPorts: seq<string>, i: nat, j: nat)
    requires i < j < |MappingsOf(vipPorts)|
    ensures MappingsOf(vipPorts)[i].name != MappingsOf(vipPorts)[j].name
  {
    var kept := Decodable(vipPorts, |vipPorts|);
    if kept == [] {
      return;
    }
    DecodableIncreases(vipPorts, kept, |vipPorts|, i, j);
    if PortName(kept[i]) == PortName(kept[j]) {
      assert PortName(kept[i])[5..] == Decimal(kept[i]) && PortName(kept[j])[5..] == Decimal(kept[j]);
      DecimalInjective(kept[i], kept[j]);
    }
  }

  // ------------------------------------------------------------------ the stateful set and the service

  function ProtocolOf(protocol: string): Protocol {
    if protocol == "UDP" then UDP else TCP
  }

  method ContainerPorts(ports: seq<PortMapping>) returns (containerPorts: seq<ContainerPort>)
    ensures |containerPorts| == |ports|
    ensures forall i | 0 <= i < |ports| ::
              containerPorts[i] == ContainerPort(ports[i].name, ports[i].port, ProtocolOf(ports[i].protocol))
  {
    containerPorts := [];
    for i := 0 to |ports|
      invariant |containerPorts| == i
      invariant forall j | 0 <= j < i ::
                  containerPorts[j] == ContainerPort(ports[j].name, ports[j].port, ProtocolOf(ports[j].protocol))
    {
      var protocol := TCP;
      if ports[i].protocol == "UDP" {
        protocol := UDP;
      }
      containerPorts := containerPorts + [ContainerPort(ports[i].name, ports[i].port, protocol)];
    }
  }

  method ServicePorts(ports: seq<PortMapping>) returns (servicePorts: seq<ServicePort>)
    ensures |servicePorts| == |ports|
    ensures forall i | 0 <= i < |ports| ::
              servicePorts[i] ==
                ServicePort(ports[i].name, ports[i].port, ports[i].targetPort.GetOr(ports[i].port),
                            ProtocolOf(ports[i].protocol))
  {
    servicePorts := [];
    for i := 0 to |ports|
      invariant |servicePorts| == i
      invariant forall j | 0 <= j < i ::
                  servicePorts[j] ==
                    ServicePort(ports[j].name, ports[j].port, ports[j].targetPort.GetOr(ports[j].port),
                                ProtocolOf(ports[j].protocol))
    {
      var protocol := TCP;
      if ports[i].protocol == "UDP" {
        protocol := UDP;
      }
      var targetPort := ports[i].port;
      if ports[i].targetPort.Some? {
        targetPort := ports[i].targetPort.value;
      }
      servicePorts := servicePorts + [ServicePort(ports[i].name, ports[i].port, targetPort, protocol)];
    }
  }

  /** The port string is prefixed with udp, in any mix of cases. */
  predicate HasUdpPrefix(portStr: string) {
    && |portStr| >= 4 && portStr[3] == ':'
    && portStr[0] in {'u', 'U'} && portStr[1] in {'d', 'D'} && portStr[2] in {'p', 'P'}
  }

  lemma {:induction false} UpperIsUdp(prefix: string)
    requires ToUpper(prefix) == "UDP"
    ensures |prefix| == 3 && prefix[0] in {'u', 'U'} && prefix[1] in {'d', 'D'} && prefix[2] in {'p', 'P'}
  {
    var upper := ToUpper(prefix);
    assert upper[0] == 'U' && upper[1] == 'D' && upper[2] == 'P';
  }

  lemma {:induction false} UdpPrefixDecodes(portStr: string)
    ensures SplitPort(portStr).0 == "UDP" <==> HasUdpPrefix(portStr)
  {
    var colon := FirstIndex(portStr, ':');
    if HasUdpPrefix(portStr) {
      assert portStr == portStr[..3] + [':'] + portStr[4..];
      FirstIndexOf(portStr[..3], ':', portStr[4..]);
      assert ToUpper(portStr[..3]) == "UDP";
    } else if colon.Some? && ToUpper(portStr[..colon.value]) == "UDP" {
      UpperIsUdp(portStr[..colon.value]);
    }
  }

  /** The service port made from the port string at index `k`. */
  predicate IsPortOf(port: ServicePort, vipPorts: seq<string>, k: nat) {
    && k < |vipPorts|
    && port.name == PortName(k)
    && Some(port.port) == ParseInt32(SplitPort(vipPorts[k]).1)
    && (port.protocol == UDP <==> HasUdpPrefix(vipPorts[k]))
  }

  /**
   The pipeline: the stateful set and the service built from the same port strings agree
   index by index, the service targets the container port, and a port is UDP exactly when
   the string it came from has a udp prefix.
   */
  method BuildPorts(vipPorts: seq<string>) returns (containerPorts: seq<ContainerPort>, servicePorts: seq<ServicePort>)
    ensures |containerPorts| == |servicePorts| == |MappingsOf(vipPorts)| > 0
    ensures forall i | 0 <= i < |servicePorts| ::
              && servicePorts[i].name == containerPorts[i].name
              && servicePorts[i].protocol == containerPorts[i].protocol
              && servicePorts[i].port == servicePorts[i].targetPort == containerPorts[i].containerPort
    ensures forall i, j | 0 <= i < j < |servicePorts| :: servicePorts[i].name != servicePorts[j].name
    ensures var kept := Decodable(vipPorts, |vipPorts|);
            if kept == [] then servicePorts == [ServicePort("http", 80, 80, TCP)]
            else |servicePorts| == |kept| && forall i | 0 <= i < |kept| :: IsPortOf(servicePorts[i], vipPorts, kept[i])
  {
    var mappings := ConvertVIPPortsToPortMappings(vipPorts);
    containerPorts := ContainerPorts(mappings);
    servicePorts := ServicePorts(mappings);
    hide ParseInt32, ToUpper, PortName, FirstIndex;
    forall i, j | 0 <= i < j < |servicePorts| ensures servicePorts[i].name != servicePorts[j].name {
      MappingNamesDistinct(vipPorts, i, j);
    }
    ghost var kept := Decodable(vipPorts, |vipPorts|);
    if kept != [] {
      forall i | 0 <= i < |kept| ensures IsPortOf(servicePorts[i], vipPorts, kept[i]) {
        UdpPrefixDecodes(vipPorts[kept[i]]);
      }
    }
  }
}
