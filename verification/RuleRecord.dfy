/** The rule columns shared by the database row and the OPNsense rule dictionary: building
    the pushed payload, parsing a listed rule, and the normal form the two agree on. */
module RuleRecord {
  import opened Text

  /** The editable columns of an OPNsenseFirewallRule row; None is SQL NULL. */
  datatype Fields = Fields(
    sequence: int,
    enabled: Option<string>,
    description: Option<string>,
    interface: Option<string>,
    interfaceNot: Option<string>,
    quick: Option<string>,
    action: Option<string>,
    direction: Option<string>,
    ipProtocol: Option<string>,
    protocol: Option<string>,
    sourceNot: Option<string>,
    sourceNet: Option<string>,
    sourcePort: Option<string>,
    destinationNot: Option<string>,
    destinationNet: Option<string>,
    destinationPort: Option<string>,
    gateway: Option<string>,
    log: Option<string>,
    stateType: Option<string>)

  /** One entry of a rule dictionary: a missing key, or a JSON scalar. */
  datatype Cell = Absent | Null | Bool(on: bool) | Number(n: int) | Text(text: string)

  type TextCell = c: Cell | c.Absent? || c.Null? || c.Text? witness Absent

  /** A rule dictionary as OPNsense lists it and as `add_rule`/`set_rule` receive it. */
  datatype RuleDict = RuleDict(
    sequence: Cell,
    enabled: Cell,
    description: TextCell,
    interface: TextCell,
    interfaceNot: Cell,
    quick: Cell,
    action: TextCell,
    direction: TextCell,
    ipProtocol: TextCell,
    protocol: TextCell,
    sourceNot: Cell,
    sourceNet: TextCell,
    sourcePort: TextCell,
    destinationNot: Cell,
    destinationNet: TextCell,
    destinationPort: TextCell,
    gateway: TextCell,
    log: Cell,
    stateType: TextCell)

  // ---------------------------------------------------------------- row to payload

  predicate HasPorts(protocol: Option<string>) {
    ToLower(OrElse(protocol, "tcp")) in {"tcp", "udp", "tcp/udp"}
  }

  /** A port column is sent only for TCP and UDP, and never as the word "any". */
  function PortText(protocol: Option<string>, port: Option<string>): string {
    if HasPorts(protocol) && OrElse(port, "") != "any" then OrElse(port, "") else ""
  }

  function Payload(f: Fields): RuleDict {
    RuleDict(
      sequence := Text(Show(f.sequence)),
      enabled := if f.enabled.None? then Null else Text(f.enabled.value),
      description := Text(OrElse(f.description, "")),
      interface := Text(OrElse(f.interface, "lan")),
      interfaceNot := Text(OrElse(f.interfaceNot, "0")),
      quick := Text(OrElse(f.quick, "1")),
      action := Text(OrElse(f.action, "pass")),
      direction := Text(OrElse(f.direction, "in")),
      ipProtocol := Text(OrElse(f.ipProtocol, "inet")),
      protocol := Text(ToUpper(OrElse(f.protocol, "tcp"))),
      sourceNot := Text(OrElse(f.sourceNot, "0")),
      sourceNet := Text(OrElse(f.sourceNet, "any")),
      sourcePort := Text(PortText(f.protocol, f.sourcePort)),
      destinationNot := Text(OrElse(f.destinationNot, "0")),
      destinationNet := Text(OrElse(f.destinationNet, "any")),
      destinationPort := Text(PortText(f.protocol, f.destinationPort)),
      gateway := Text(OrElse(f.gateway, "")),
      log := Text(OrElse(f.log, "0")),
      stateType := Text(OrElse(f.stateType, "keep")))
  }

  // ---------------------------------------------------------------- listed rule to row

  /** `_parse_bool` */
  function ParseBool(c: Cell): string {
    match c
    case Bool(on) => if on then "1" else "0"
    case Text(t) => if ToLower(t) in {"1", "true", "yes", "on"} then "1" else "0"
    case _ => "0"
  }

  /** `_parse_bool(rule_dict.get(key, default))` */
  function ParseFlag(c: Cell, default: string): Option<string> {
    Some(ParseBool(if c.Absent? then Text(default) else c))
  }

  /** `rule_dict.get(key, default)` stored into a nullable text column. */
  function ParseText(c: TextCell, default: string): Option<string> {
    match c
    case Text(t) => Some(t)
    case Null => None
    case _ => Some(default)
  }

  /** `int(rule_dict.get("sequence", default))`; None where Python raises. */
  function ParseSequence(c: Cell, default: int): Option<int> {
    match c
    case Absent => Some(default)
    case Null => None
    case Bool(on) => Some(if on then 1 else 0)
    case Number(n) => Some(n)
    case Text(t) => ParseInt(t)
  }

  function ParseColumns(d: RuleDict, sequence: int): Fields {
    Fields(
      sequence := sequence,
      enabled := ParseFlag(d.enabled, "1"),
      description := ParseText(d.description, ""),
      interface := ParseText(d.interface, "lan"),
      interfaceNot := ParseFlag(d.interfaceNot, "0"),
      quick := ParseFlag(d.quick, "1"),
      action := ParseText(d.action, "pass"),
      direction := ParseText(d.direction, "in"),
      ipProtocol := ParseText(d.ipProtocol, "inet"),
      protocol := ParseText(d.protocol, "tcp"),
      sourceNot := ParseFlag(d.sourceNot, "0"),
      sourceNet := ParseText(d.sourceNet, "any"),
      sourcePort := ParseText(d.sourcePort, "any"),
      destinationNot := ParseFlag(d.destinationNot, "0"),
      destinationNet := ParseText(d.destinationNet, "any"),
      destinationPort := ParseText(d.destinationPort, "any"),
      gateway := ParseText(d.gateway, ""),
      log := ParseFlag(d.log, "0"),
      stateType := ParseText(d.stateType, "keep"))
  }

  /** The columns a sync stores for a listed rule; None when the rule cannot be parsed. */
  function ParseRule(d: RuleDict): Option<Fields> {
    var sequence := ParseSequence(d.sequence, 100);
    if sequence.None? then None else Some(ParseColumns(d, sequence.value))
  }

  // ---------------------------------------------------------------- the normal form

  /** A flag whose pushed text is "0" or "1". */
  predicate PlainFlag(flag: Option<string>) {
    flag in {None, Some(""), Some("0"), Some("1")}
  }

  predicate PlainFlags(f: Fields) {
    && f.enabled in {Some("0"), Some("1")}
    && PlainFlag(f.interfaceNot) && PlainFlag(f.quick) && PlainFlag(f.sourceNot)
    && PlainFlag(f.destinationNot) && PlainFlag(f.log)
  }

  /** What a sync stores after the payload of `f` has been pushed. */
  function Normalised(f: Fields): Fields {
    ParseColumns(Payload(f), f.sequence)
  }

  lemma PayloadParses(f: Fields)
    ensures ParseRule(Payload(f)) == Some(Normalised(f))
  {
    ParseShow(f.sequence);
  }

  lemma FlagStable(flag: Option<string>, default: string)
    requires default in {"0", "1"}
    ensures ParseFlag(Text(OrElse(flag, default)), default) == Some(OrElse(flag, default)) <==> PlainFlag(flag)
  {
    var text := OrElse(flag, default);
    var parsed := ParseFlag(Text(text), default);
    assert parsed == Some("0") || parsed == Some("1");
    assert ToLower("0") == "0" && ToLower("1") == "1";
  }

  lemma EnabledStable(flag: Option<string>)
    ensures var cell := if flag.None? then Null else Text(flag.value);
            (flag.Some? && ParseFlag(cell, "1") == flag) <==> flag in {Some("0"), Some("1")}
  {
    assert ToLower("0") == "0" && ToLower("1") == "1";
  }

  lemma PortStable(protocol: Option<string>, port: Option<string>)
    ensures var sent := Some(ToUpper(OrElse(protocol, "tcp")));
            PortText(sent, Some(PortText(protocol, port))) == PortText(protocol, port)
  {
    UpperIsNormal(OrElse(protocol, "tcp"));
  }

  /** Pushing, listing and pushing again sends the same payload exactly for rows whose flags
      are pushed as "0" or "1"; for such rows the stored columns are a fixed point as well. */
  lemma PayloadNormalForm(f: Fields)
    ensures Payload(Normalised(f)) == Payload(f) <==> PlainFlags(f)
    ensures PlainFlags(Normalised(f))
    ensures Normalised(Normalised(f)) == Normalised(f)
  {
    NormalisedIsStable(f);
    PayloadKeepsText(f);
    FlagStable(f.interfaceNot, "0");
    FlagStable(f.quick, "1");
    FlagStable(f.sourceNot, "0");
    FlagStable(f.destinationNot, "0");
    FlagStable(f.log, "0");
    EnabledStable(f.enabled);
  }

  lemma PayloadKeepsText(f: Fields)
    ensures var p, q := Payload(f), Payload(Normalised(f));
            && q.sequence == p.sequence && q.description == p.description
            && q.interface == p.interface && q.action == p.action && q.direction == p.direction
            && q.ipProtocol == p.ipProtocol && q.protocol == p.protocol
            && q.sourceNet == p.sourceNet && q.sourcePort == p.sourcePort
            && q.destinationNet == p.destinationNet && q.destinationPort == p.destinationPort
            && q.gateway == p.gateway && q.stateType == p.stateType
  {
    UpperIsNormal(OrElse(f.protocol, "tcp"));
    PortStable(f.protocol, f.sourcePort);
    PortStable(f.protocol, f.destinationPort);
  }

  lemma NormalisedIsStable(f: Fields)
    ensures PlainFlags(Normalised(f))
    ensures Normalised(Normalised(f)) == Normalised(f)
  {
    var g := Normalised(f);
    PayloadKeepsText(f);
    FlagStable(g.interfaceNot, "0");
    FlagStable(g.quick, "1");
    FlagStable(g.sourceNot, "0");
    FlagStable(g.destinationNot, "0");
    FlagStable(g.log, "0");
    EnabledStable(g.enabled);
  }

  // ---------------------------------------------------------------- key by key

  /** A text key: the column's own text, or the default for an empty column. */
  ghost predicate Carries(c: Cell, column: Option<string>, default: string) {
    && (column.Some? && column.value != "" ==> c == Text(column.value))
    && (column in {None, Some("")} ==> c == Text(default))
  }

  /** A protocol with ports, in any case of its letters. */
  ghost predicate IsTcpUdp(protocol: string) {
    ToLower(protocol) in {"tcp", "udp", "tcp/udp"}
  }

  /** A port key: the port itself for a protocol with ports, and nothing otherwise. */
  ghost predicate CarriesPort(c: Cell, protocol: Option<string>, port: Option<string>) {
    if (protocol in {None, Some("")} || IsTcpUdp(protocol.value)) && port !in {None, Some(""), Some("any")}
    then c == Text(port.value) else c == Text("")
  }

  /** Each key of a dictionary is the column of the same name. */
  ghost predicate Sends(d: RuleDict, f: Fields) {
    && d.sequence.Text? && ParseInt(d.sequence.text) == Some(f.sequence)
    && d.enabled == (if f.enabled == None then Null else Text(f.enabled.value))
    && Carries(d.description, f.description, "") && Carries(d.interface, f.interface, "lan")
    && Carries(d.interfaceNot, f.interfaceNot, "0") && Carries(d.quick, f.quick, "1")
    && Carries(d.action, f.action, "pass") && Carries(d.direction, f.direction, "in")
    && Carries(d.ipProtocol, f.ipProtocol, "inet")
    && (f.protocol in {None, Some("")} ==> d.protocol == Text("TCP"))
    && (f.protocol.Some? && f.protocol.value != "" ==> d.protocol == Text(ToUpper(f.protocol.value)))
    && Carries(d.sourceNot, f.sourceNot, "0") && Carries(d.sourceNet, f.sourceNet, "any")
    && CarriesPort(d.sourcePort, f.protocol, f.sourcePort)
    && Carries(d.destinationNot, f.destinationNot, "0") && Carries(d.destinationNet, f.destinationNet, "any")
    && CarriesPort(d.destinationPort, f.protocol, f.destinationPort)
    && Carries(d.gateway, f.gateway, "") && Carries(d.log, f.log, "0") && Carries(d.stateType, f.stateType, "keep")
  }

  lemma OrElseCarries(column: Option<string>, default: string)
    ensures Carries(Text(OrElse(column, default)), column, default)
  {
  }

  lemma PortTextCarries(protocol: Option<string>, port: Option<string>)
    ensures CarriesPort(Text(PortText(protocol, port)), protocol, port)
  {
    assert ToLower("tcp") == "tcp";
  }

  lemma ProtocolSent(protocol: Option<string>)
    ensures protocol in {None, Some("")} ==> ToUpper(OrElse(protocol, "tcp")) == "TCP"
    ensures protocol.Some? && protocol.value != "" ==> OrElse(protocol, "tcp") == protocol.value
  {
    assert ToUpper("tcp") == "TCP";
  }

  lemma PayloadSends(f: Fields)
    ensures Sends(Payload(f), f)
  {
    hide OrElse, PortText, Carries, CarriesPort, ToUpper, ParseInt, Show;
    ParseShow(f.sequence);
    ProtocolSent(f.protocol);
    PortTextCarries(f.protocol, f.sourcePort);
    PortTextCarries(f.protocol, f.destinationPort);
    OrElseCarries(f.description, "");
    OrElseCarries(f.interface, "lan");
    OrElseCarries(f.interfaceNot, "0");
    OrElseCarries(f.quick, "1");
    OrElseCarries(f.action, "pass");
    OrElseCarries(f.direction, "in");
    OrElseCarries(f.ipProtocol, "inet");
    OrElseCarries(f.sourceNot, "0");
    OrElseCarries(f.sourceNet, "any");
    OrElseCarries(f.destinationNot, "0");
    OrElseCarries(f.destinationNet, "any");
    OrElseCarries(f.gateway, "");
    OrElseCarries(f.log, "0");
    OrElseCarries(f.stateType, "keep");
  }

  /** A text column read from a key, a null or a missing key. */
  ghost predicate TextRead(c: Cell, default: string, column: Option<string>) {
    && (c.Text? ==> column == Some(c.text)) && (c.Null? ==> column == None)
    && (c.Absent? ==> column == Some(default))
  }

  /** A flag read from a key: set for `true` and for the four words in any case. */
  ghost predicate FlagRead(c: Cell, default: bool, column: Option<string>) {
    && column in {Some("0"), Some("1")}
    && (column == Some("1") <==>
          || (c.Absent? && default) || c == Bool(true)
          || (c.Text? && ToLower(c.text) in {"1", "true", "yes", "on"}))
  }

  /** The sequence read from a key; text, a number and even a flag count as an integer. */
  ghost predicate SequenceRead(c: Cell, sequence: int) {
    && !c.Null? && (c.Absent? ==> sequence == 100) && (c.Number? ==> sequence == c.n)
    && (c.Bool? ==> sequence == if c.on then 1 else 0) && (c.Text? ==> ParseInt(c.text) == Some(sequence))
  }

  /** Each column is the key of the same name. */
  ghost predicate Reads(d: RuleDict, f: Fields) {
    && SequenceRead(d.sequence, f.sequence) && FlagRead(d.enabled, true, f.enabled)
    && TextRead(d.description, "", f.description) && TextRead(d.interface, "lan", f.interface)
    && FlagRead(d.interfaceNot, false, f.interfaceNot) && FlagRead(d.quick, true, f.quick)
    && TextRead(d.action, "pass", f.action) && TextRead(d.direction, "in", f.direction)
    && TextRead(d.ipProtocol, "inet", f.ipProtocol) && TextRead(d.protocol, "tcp", f.protocol)
    && FlagRead(d.sourceNot, false, f.sourceNot) && TextRead(d.sourceNet, "any", f.sourceNet)
    && TextRead(d.sourcePort, "any", f.sourcePort)
    && FlagRead(d.destinationNot, false, f.destinationNot) && TextRead(d.destinationNet, "any", f.destinationNet)
    && TextRead(d.destinationPort, "any", f.destinationPort)
    && TextRead(d.gateway, "", f.gateway) && FlagRead(d.log, false, f.log) && TextRead(d.stateType, "keep", f.stateType)
  }

  lemma FlagIsRead(c: Cell, default: string)
    requires default in {"0", "1"}
    ensures FlagRead(c, default == "1", ParseFlag(c, default))
  {
    assert ToLower("0") == "0" && ToLower("1") == "1";
  }

  lemma TextsAreRead()
    ensures forall c: TextCell, default :: TextRead(c, default, ParseText(c, default))
  {
  }

  /** A listed rule is refused exactly for its sequence, and otherwise read key by key. */
  lemma ParseReads(d: RuleDict)
    ensures ParseRule(d).None? <==> d.sequence.Null? || (d.sequence.Text? && ParseInt(d.sequence.text).None?)
    ensures ParseRule(d).Some? ==> Reads(d, ParseRule(d).value)
  {
    hide TextRead, FlagRead, ParseText, ParseFlag, ParseInt;
    TextsAreRead();
    FlagIsRead(d.enabled, "1");
    FlagIsRead(d.interfaceNot, "0");
    FlagIsRead(d.quick, "1");
    FlagIsRead(d.sourceNot, "0");
    FlagIsRead(d.destinationNot, "0");
    FlagIsRead(d.log, "0");
  }

  // ---------------------------------------------------------------- rows the cycle leaves alone

  predicate NormalFlag(flag: Option<string>) {
    flag in {Some("0"), Some("1")}
  }

  predicate NormalText(column: Option<string>) {
    column.Some? && column.value != ""
  }

  predicate NormalPort(protocol: string, port: Option<string>) {
    port == Some("") || (port.Some? && port.value != "any" && ToLower(protocol) in {"tcp", "udp", "tcp/udp"})
  }

  /** Every column already has the form in which the appliance gives it back. */
  predicate Normal(f: Fields) {
    && NormalFlag(f.enabled) && NormalFlag(f.interfaceNot) && NormalFlag(f.quick) && NormalFlag(f.sourceNot)
    && NormalFlag(f.destinationNot) && NormalFlag(f.log)
    && f.description.Some? && f.gateway.Some?
    && NormalText(f.interface) && NormalText(f.action) && NormalText(f.direction) && NormalText(f.ipProtocol)
    && NormalText(f.protocol) && NormalText(f.sourceNet) && NormalText(f.destinationNet) && NormalText(f.stateType)
    && ToUpper(f.protocol.value) == f.protocol.value
    && NormalPort(f.protocol.value, f.sourcePort) && NormalPort(f.protocol.value, f.destinationPort)
  }

  lemma NormalFlagStays(flag: Option<string>, default: string)
    requires default in {"0", "1"}
    ensures ParseFlag(Text(OrElse(flag, default)), default) == flag <==> NormalFlag(flag)
  {
    assert ToLower("0") == "0" && ToLower("1") == "1";
  }

  lemma NormalTextStays(column: Option<string>, default: string)
    ensures ParseText(Text(OrElse(column, default)), default) == column <==>
            NormalText(column) || (default == "" && column.Some?)
  {
  }

  lemma NormalPortStays(protocol: Option<string>, port: Option<string>)
    requires NormalText(protocol)
    ensures ParseText(Text(PortText(protocol, port)), "any") == port <==> NormalPort(protocol.value, port)
  {
  }

  /** Pushing a row and reading it back gives the same columns if and only if they are normal. */
  lemma NormalRowsStay(f: Fields)
    ensures Normalised(f) == f <==> Normal(f)
  {
    NormalFlagStays(f.interfaceNot, "0");
    NormalFlagStays(f.quick, "1");
    NormalFlagStays(f.sourceNot, "0");
    NormalFlagStays(f.destinationNot, "0");
    NormalFlagStays(f.log, "0");
    EnabledStable(f.enabled);
    NormalTextStays(f.description, "");
    NormalTextStays(f.gateway, "");
    NormalTextStays(f.interface, "lan");
    NormalTextStays(f.action, "pass");
    NormalTextStays(f.direction, "in");
    NormalTextStays(f.ipProtocol, "inet");
    NormalTextStays(f.sourceNet, "any");
    NormalTextStays(f.destinationNet, "any");
    NormalTextStays(f.stateType, "keep");
    if NormalText(f.protocol) {
      NormalPortStays(f.protocol, f.sourcePort);
      NormalPortStays(f.protocol, f.destinationPort);
    }
  }
}
