/** The checks that the Tailscale client makes before it calls the API. */
module VIPClient {
  import opened Options
  import opened Text
  import opened Api
  import opened Validation

  const RESERVED_NAMES := {"localhost", "wpad", "autoconfig", "isatap", "teredo", "autorouter"}

  const MAX_NAME_LENGTH := 63

  /** The name without the optional svc: in front. */
  function BaseName(name: string): string {
    if "svc:" <= name then name[4..] else name
  }

  /** ServiceName.Validate, as the message of its error. */
  function ValidateName(name: string): Option<string> {
    var baseName := BaseName(name);
    if "svc:" <= name && baseName == "" then Some("service name cannot be empty after 'svc:' prefix")
    else if baseName == "" then Some("service name cannot be empty")
    else if |baseName| > MAX_NAME_LENGTH then Some("service name too long (max 63 characters): " + baseName)
    else if ToLower(baseName) in RESERVED_NAMES then Some("service name '" + baseName + "' is reserved")
    else if !IsDNSLabel(baseName) then
      Some("service name must be a valid DNS label (lowercase letters, numbers, hyphens): " + baseName)
    else None
  }

  /** Nothing is left when white space is trimmed. */
  predicate IsBlank(s: string) {
    forall c <- s :: IsWhiteSpace(c)
  }

  function ValidatePortSpec(portSpec: string): Option<string> {
    if portSpec == "do-not-validate" then None
    else
      match FirstIndex(portSpec, ':')
      case None => Some("port must be in format 'protocol:port' or 'protocol:startport-endport'")
      case Some(k) =>
        if ToLower(portSpec[..k]) !in {"tcp", "udp"} then Some("protocol must be 'tcp' or 'udp'")
        else if IsBlank(portSpec[k + 1..]) then Some("port cannot be empty")
        else None
  }

  /** The error for the first port that has one. */
  function ValidatePorts(ports: seq<string>): (err: Option<string>)
    ensures err.None? <==> forall port <- ports :: ValidatePortSpec(port).None?
  {
    if ports == [] then None
    else if ValidatePortSpec(ports[0]).Some? then
      Some("invalid port specification '" + ports[0] + "': " + ValidatePortSpec(ports[0]).value)
    else
      assert ports == [ports[0]] + ports[1..];
      ValidatePorts(ports[1..])
  }

  function ValidateVIPService(name: string, ports: seq<string>, tags: seq<string>): Option<string> {
    if ValidateName(name).Some? then Some("invalid service name: " + ValidateName(name).value)
    else if ValidatePorts(ports).Some? then ValidatePorts(ports)
    else if exists tag <- tags :: IsBlank(tag) then Some("empty tag not allowed")
    else None
  }

  // ------------------------------------------------------------------ against the validator

  /** The name of the VIP service of a custom resource. */
  function VipServiceName(spec: ServiceSpec, name: string): string {
    if spec.vipService.name == "" then "svc:" + name else spec.vipService.name
  }

  lemma {:induction false} LabelIsLower(s: string)
    requires IsDNSLabel(s)
    ensures ToLower(s) == s
  {
    forall i | 0 <= i < |s| ensures LowerChar(s[i]) == s[i] {
      assert s[i] in s;
    }
  }

  /** A name is accepted exactly if, without svc:, it is a label of at most 63 characters that is not reserved. */
  lemma {:induction false} NameAcceptedExactly(name: string)
    ensures ValidateName(name).None? <==>
              IsDNSLabel(BaseName(name)) && |BaseName(name)| <= MAX_NAME_LENGTH && BaseName(name) !in RESERVED_NAMES
  {
    if IsDNSLabel(BaseName(name)) { LabelIsLower(BaseName(name)); }
  }

  /** Of the ports that the validator accepts, the client refuses exactly those without a number. */
  lemma {:induction false} PortAcceptedExactly(names: PortNames, port: string)
    requires IsValidPortFormat(names, port)
    ensures ValidatePortSpec(port).None? <==> !IsBlank(SplitOnce(port).value.1)
  {
    assert port != "do-not-validate" by {
      var text := "do-not-validate";
      assert forall i | 0 <= i < |text| :: text[i] != ':';
    }
  }

  lemma {:induction false} TagNotBlank(tag: string)
    requires IsValidTagFormat(tag)
    ensures !IsBlank(tag)
  {
    assert tag[0] == 't' && tag[0] in tag;
  }

  /**
   A custom resource that the validator accepts is accepted by the client exactly if its VIP
   service name is a free label that fits, and none of its ports lacks a number.
   */
  lemma {:induction false} AcceptedByBothExactly(names: PortNames, spec: ServiceSpec, name: string)
    requires ValidateTailscaleService(names, spec).Valid?
    ensures var vipName := VipServiceName(spec, name);
            ValidateVIPService(vipName, spec.vipService.ports, spec.vipService.tags).None? <==>
              && (spec.vipService.name == "" ==> IsDNSLabel(name))
              && |vipName| <= 4 + MAX_NAME_LENGTH && BaseName(vipName) !in RESERVED_NAMES
              && forall port <- spec.vipService.ports :: !IsBlank(SplitOnce(port).value.1)
  {
    AcceptedExactly(names, spec);
    var vipName := VipServiceName(spec, name);
    NameAcceptedExactly(vipName);
    assert |vipName| == 4 + |BaseName(vipName)|;
    assert IsDNSLabel(BaseName(vipName)) <==> spec.vipService.name == "" ==> IsDNSLabel(name) by {
      if spec.vipService.name == "" { assert BaseName(vipName) == name; }
    }
    forall port <- spec.vipService.ports ensures ValidatePortSpec(port).None? <==> !IsBlank(SplitOnce(port).value.1) {
      PortAcceptedExactly(names, port);
    }
    forall tag <- spec.vipService.tags ensures !IsBlank(tag) {
      TagNotBlank(tag);
    }
  }

  // ------------------------------------------------------------------ what the client takes

  /** A name is a label, with or without svc: in front, of at most 63 characters and not one of six. */
  lemma {:induction false} LabelAcceptedExactly(base: string, name: string)
    requires name == "svc:" + base || (name == base && !("svc:" <= name))
    ensures ValidateName(name).None? <==>
              && IsDNSLabel(base) && |base| <= 63
              && base !in {"localhost", "wpad", "autoconfig", "isatap", "teredo", "autorouter"}
  {
    NameAcceptedExactly(name);
    assert BaseName(name) == base;
    hide ValidateName, IsDNSLabel;
  }

  /** Over all text: a port is tcp or udp, a colon and something not blank, or the word that skips the check. */
  lemma {:induction false} PortSpecAcceptedExactly(protocol: string, rest: string)
    requires ':' !in protocol
    ensures ValidatePortSpec(protocol + ":" + rest).None? <==> ToLower(protocol) in {"tcp", "udp"} && !IsBlank(rest)
    ensures ValidatePortSpec(protocol).None? <==> protocol == "do-not-validate"
  {
    FirstIndexOf(protocol, ':', rest);
    hide FirstIndex;
    var portSpec := protocol + ":" + rest;
    assert portSpec[..|protocol|] == protocol && portSpec[|protocol| + 1..] == rest && portSpec[|protocol|] == ':';
    assert portSpec != "do-not-validate" by {
      var text := "do-not-validate";
      assert forall i | 0 <= i < |text| :: text[i] != ':';
    }
  }

  /** The client takes a VIP service exactly if it takes its name and every port, and no tag is blank. */
  lemma {:induction false} ClientAcceptsExactly(name: string, ports: seq<string>, tags: seq<string>)
    ensures ValidateVIPService(name, ports, tags).None? <==>
              && ValidateName(name).None?
              && (forall port <- ports :: ValidatePortSpec(port).None?)
              && forall tag <- tags :: !IsBlank(tag)
  {
    hide ValidateName, ValidatePortSpec, IsBlank;
  }
}
