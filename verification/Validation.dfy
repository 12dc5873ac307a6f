/** What the validator accepts. */
module Validation {
  import opened Options
  import opened Text
  import opened Api

  const MAX_PORT: nat := 65535

  predicate IsAlnum(c: char) {
    'a' <= c <= 'z' || IsDigit(c)
  }

  predicate IsLabelChar(c: char) {
    IsAlnum(c) || c == '-'
  }

  predicate IsHostChar(c: char) {
    IsLabelChar(c) || c == '.'
  }

  /** Only the given characters, with a letter or digit at either end. */
  predicate IsBounded(s: string, inner: char -> bool) {
    && s != [] && IsAlnum(s[0]) && IsAlnum(s[|s| - 1])
    && forall c <- s :: inner(c)
  }

  predicate IsDNSLabel(s: string) {
    IsBounded(s, IsLabelChar)
  }

  /** One or more labels with dots between them. */
  predicate IsDNSName(s: string) {
    match FirstIndex(s, '.')
    case None => IsDNSLabel(s)
    case Some(k) => IsDNSLabel(s[..k]) && IsDNSName(s[k + 1..])
  }

  predicate IsServiceName(s: string) {
    "svc:" <= s && IsDNSLabel(s[4..])
  }

  predicate IsAddress(s: string) {
    match FirstIndex(s, ':')
    case None => false
    case Some(k) => IsBounded(s[..k], IsHostChar) && k + 1 < |s| && AllDigits(s[k + 1..])
  }

  /** The port names of the system's services database. */
  type PortNames = set<(string, string)>

  /** net.LookupPort succeeds on a name it knows, on an empty port, and on an optionally signed number in range. */
  predicate LooksUp(names: PortNames, network: string, service: string) {
    var signed := service != [] && service[0] in {'+', '-'};
    var digits := if signed then service[1..] else service;
    if AllDigits(digits) then
      DecimalValue(digits) <= if signed && service[0] == '-' then 0 else MAX_PORT
    else (network, service) in names
  }

  /** Text with exactly one colon, as the two parts around it. */
  function SplitOnce(s: string): Option<(string, string)> {
    match FirstIndex(s, ':')
    case None => None
    case Some(k) => if ':' in s[k + 1..] then None else Some((s[..k], s[k + 1..]))
  }

  predicate IsValidPortFormat(names: PortNames, port: string) {
    match SplitOnce(port)
    case None => false
    case Some((protocol, service)) =>
      ToLower(protocol) in {"tcp", "udp"} && LooksUp(names, ToLower(protocol), service)
  }

  predicate IsValidTagFormat(tag: string) {
    "tag:" <= tag && |tag| > 4
  }

  predicate IsValidKubernetesService(names: PortNames, service: string) {
    match SplitOnce(service)
    case None => false
    case Some((fqdn, port)) => LooksUp(names, "tcp", port) && IsDNSName(fqdn)
  }

  /** The field an error is about; the first check that fails decides. */
  datatype Verdict = Valid | Invalid(field: string)

  function ValidateVIPServiceSpec(names: PortNames, spec: VIPServiceSpec): Verdict {
    if spec.name != "" && !IsServiceName(spec.name) then Invalid("vipService.name")
    else if spec.ports == [] then Invalid("vipService.ports")
    else if exists port <- spec.ports :: !IsValidPortFormat(names, port) then Invalid("vipService.ports")
    else if spec.tags == [] then Invalid("vipService.tags")
    else if exists tag <- spec.tags :: !IsValidTagFormat(tag) then Invalid("vipService.tags")
    else Valid
  }

  function ValidateBackendSpec(names: PortNames, spec: BackendSpec): Verdict {
    var target :=
      if spec.kind == "kubernetes" then
        if spec.service == "" || !IsValidKubernetesService(names, spec.service) then Invalid("backend.service")
        else Valid
      else if spec.kind == "external" then
        if spec.address == "" || !IsAddress(spec.address) then Invalid("backend.address") else Valid
      else if spec.kind == "tailscale" then
        if spec.tailscaleService == "" then Invalid("backend.tailscaleService") else Valid
      else Invalid("backend.type");
    if target.Invalid? then target
    else if spec.weight.Some? && !(1 <= spec.weight.value <= 100) then Invalid("backend.weight")
    else Valid
  }

  function ValidateBackends(names: PortNames, backends: seq<BackendSpec>): Verdict {
    if backends == [] then Valid
    else
      var first := ValidateBackendSpec(names, backends[0]);
      if first.Invalid? then first else ValidateBackends(names, backends[1..])
  }

  function ValidateProxySpec(spec: ProxySpec): Verdict {
    if spec.replicas.Some? && spec.replicas.value < 1 then Invalid("proxy.replicas")
    else if spec.connectionType !in {"", "ingress", "egress", "bidirectional"} then Invalid("proxy.connectionType")
    else Valid
  }

  function ValidateTailscaleService(names: PortNames, spec: ServiceSpec): Verdict {
    var vip := ValidateVIPServiceSpec(names, spec.vipService);
    var backends := ValidateBackends(names, spec.backends);
    if vip.Invalid? then vip
    else if backends.Invalid? then backends
    else
      match spec.proxy
      case None => Valid
      case Some(proxy) =>
        var verdict := ValidateProxySpec(proxy);
        if verdict.Invalid? then verdict
        else if spec.tailnet == "" then Invalid("tailnet")
        else Valid
  }

  lemma {:induction false} BackendsAcceptedExactly(names: PortNames, backends: seq<BackendSpec>)
    ensures ValidateBackends(names, backends).Valid? <==> forall b <- backends :: ValidateBackendSpec(names, b).Valid?
  {
    hide ValidateBackendSpec;
    if backends != [] {
      BackendsAcceptedExactly(names, backends[1..]);
      assert backends == [backends[0]] + backends[1..];
    }
  }

  predicate AcceptedVIP(names: PortNames, spec: VIPServiceSpec) {
    && (spec.name == "" || IsServiceName(spec.name))
    && spec.ports != [] && (forall port <- spec.ports :: IsValidPortFormat(names, port))
    && spec.tags != [] && forall tag <- spec.tags :: IsValidTagFormat(tag)
  }

  predicate AcceptedProxy(spec: ProxySpec, tailnet: string) {
    && (spec.replicas.Some? ==> spec.replicas.value >= 1)
    && spec.connectionType in {"", "ingress", "egress", "bidirectional"}
    && tailnet != ""
  }

  /** A service is accepted exactly if each of its parts is. */
  lemma {:induction false} AcceptedExactly(names: PortNames, spec: ServiceSpec)
    ensures ValidateTailscaleService(names, spec).Valid? <==>
              && AcceptedVIP(names, spec.vipService)
              && (forall b <- spec.backends :: ValidateBackendSpec(names, b).Valid?)
              && (spec.proxy.Some? ==> AcceptedProxy(spec.proxy.value, spec.tailnet))
  {
    hide ValidateBackendSpec, IsValidPortFormat, IsValidTagFormat, IsServiceName;
    BackendsAcceptedExactly(names, spec.backends);
  }

  // ------------------------------------------------------------------ what the parts look like

  /** The two protocols, in any mix of cases. */
  lemma {:induction false} ProtocolInAnyCase(s: string)
    ensures ToLower(s) == "udp" <==> |s| == 3 && s[0] in {'u', 'U'} && s[1] in {'d', 'D'} && s[2] in {'p', 'P'}
    ensures ToLower(s) == "tcp" <==> |s| == 3 && s[0] in {'t', 'T'} && s[1] in {'c', 'C'} && s[2] in {'p', 'P'}
  {
    if |s| == 3 {
      assert ToLower(s) == [LowerChar(s[0]), LowerChar(s[1]), LowerChar(s[2])];
    } else {
      assert |ToLower(s)| != 3;
    }
  }

  /** A port or a target is two texts around its only colon. */
  lemma {:induction false} FormatsSplit(names: PortNames, left: string, right: string)
    requires ':' !in left && ':' !in right
    ensures IsValidPortFormat(names, left + ":" + right) <==>
              ToLower(left) in {"tcp", "udp"} && LooksUp(names, ToLower(left), right)
    ensures IsValidKubernetesService(names, left + ":" + right) <==> IsDNSName(left) && LooksUp(names, "tcp", right)
    ensures !IsValidPortFormat(names, left) && !IsValidKubernetesService(names, left)
  {
    FirstIndexOf(left, ':', right);
    hide FirstIndex, LooksUp, IsDNSName;
    var s := left + ":" + right;
    assert s[..|left|] == left && s[|left| + 1..] == right;
  }

  /** Of the numbers, with or without a sign, a port is looked up exactly if it is between 0 and 65535. */
  lemma {:induction false} NumberLooksUpExactly(names: PortNames, network: string, n: nat)
    ensures LooksUp(names, network, Decimal(n)) <==> n <= 65535
    ensures LooksUp(names, network, "+" + Decimal(n)) <==> n <= 65535
    ensures LooksUp(names, network, "-" + Decimal(n)) <==> n == 0
    ensures LooksUp(names, network, "")
  {
    var digits := Decimal(n);
    DecimalRoundTrip(n);
    assert IsDigit(digits[0]);
    assert ("+" + digits)[1..] == digits && ("-" + digits)[1..] == digits;
    assert DecimalValue("") == 0;
    hide DecimalValue, Decimal;
  }

  /** A backend is accepted exactly if it has the target that its kind asks for, and its weight is a percentage. */
  lemma {:induction false} BackendAcceptedExactly(names: PortNames, b: BackendSpec)
    ensures ValidateBackendSpec(names, b).Valid? <==>
              && (b.weight.Some? ==> 1 <= b.weight.value <= 100)
              && (|| (b.kind == "kubernetes" && IsValidKubernetesService(names, b.service))
                  || (b.kind == "external" && IsAddress(b.address))
                  || (b.kind == "tailscale" && b.tailscaleService != ""))
  {
    hide LooksUp, IsDNSName;
  }
}
