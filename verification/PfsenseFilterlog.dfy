/** The pfSense filterlog adapter: field parsing, normalisation into an event, and the ingest validator. */
module PfsenseFilterlog {
  import opened Common
  import opened Text

  // ---------- text ----------

  /** The characters [\x00-\x08\x0b\x0c\x0e-\x1f\x7f]. */
  predicate IsUnsafe(c: char) {
    c <= '\U{8}' || c == '\U{b}' || c == '\U{c}' || '\U{e}' <= c <= '\U{1f}' || c == '\U{7f}'
  }

  function WithoutUnsafe(s: string): (r: string)
    ensures forall i :: 0 <= i < |r| ==> !IsUnsafe(r[i])
    ensures (forall i :: 0 <= i < |s| ==> !IsUnsafe(s[i])) ==> r == s
  {
    if s == "" then ""
    else if IsUnsafe(s[0]) then WithoutUnsafe(s[1..])
    else [s[0]] + WithoutUnsafe(s[1..])
  }

  /** sanitize_pfsense_text of a string. */
  function Clean(s: string): string {
    Strip(WithoutUnsafe(s))
  }

  function LowerChar(c: char): char {
    if 'A' <= c <= 'Z' then (c as int + 32) as char else c
  }

  function Lower(s: string): (r: string)
    ensures |r| == |s| && forall i :: 0 <= i < |s| ==> r[i] == LowerChar(s[i])
  {
    if s == "" then "" else [LowerChar(s[0])] + Lower(s[1..])
  }

  function UpperChar(c: char): char {
    if 'a' <= c <= 'z' then (c as int - 32) as char else c
  }

  function Upper(s: string): (r: string)
    ensures |r| == |s| && forall i :: 0 <= i < |s| ==> r[i] == UpperChar(s[i])
  {
    if s == "" then "" else [UpperChar(s[0])] + Upper(s[1..])
  }

  /** int() accepts single underscores between digits. */
  function ReadDigits(s: string): Option<int> {
    if s == "" || !IsDigit(s[|s| - 1]) then None
    else
      var n, digit := |s| - 1, DigitValue(s[|s| - 1]);
      if n == 0 then Some(digit)
      else
        var high := ReadDigits(if s[n - 1] == '_' then s[..n - 1] else s[..n]);
        if high.None? then None else Some(10 * high.value + digit)
  }

  /** int(text) on stripped text; None is the ValueError. */
  function ReadPythonInt(s: string): Option<int> {
    if s != "" && s[0] == '-' then
      var n := ReadDigits(s[1..]);
      if n.None? then None else Some(-n.value)
    else if s != "" && s[0] == '+' then ReadDigits(s[1..])
    else ReadDigits(s)
  }

  function SplitDots(s: string): (parts: seq<string>)
    ensures parts != []
  {
    if s == "" then [""]
    else
      var rest := SplitDots(s[1..]);
      if s[0] == '.' then [""] + rest else [[s[0]] + rest[0]] + rest[1..]
  }

  predicate IsDecimal(s: string) {
    s != "" && forall i :: 0 <= i < |s| ==> IsDigit(s[i])
  }

  predicate IsOctet(s: string) {
    IsDecimal(s) && |s| <= 3 && (|s| > 1 ==> s[0] != '0') && ReadNat(s).Some? && ReadNat(s).value <= 255
  }

  /** ipaddress.ip_address(s) is an IPv4 address; its text is then s itself, leading zeros being refused. */
  predicate IsIPv4(s: string) {
    var parts := SplitDots(s);
    |parts| == 4 && forall i :: 0 <= i < 4 ==> IsOctet(parts[i])
  }

  // ---------- values ----------

  datatype Value = Null | Text(text: string) | Number(number: int) | Flag(flag: bool)

  /** str(value), with None as the empty text _clean gives it. */
  function Show(v: Value): string {
    match v
    case Null => ""
    case Text(s) => s
    case Number(n) => ShowInt(n)
    case Flag(b) => if b then "True" else "False"
  }

  function CleanValue(v: Value): string {
    Clean(Show(v))
  }

  function Maybe(s: string): Option<string> {
    if s == "" then None else Some(s)
  }

  function ValidatedIp(s: string): Option<string> {
    if IsIPv4(Clean(s)) then Some(Clean(s)) else None
  }

  function Bounded(s: string, max: int): Option<int> {
    var n := ReadPythonInt(Clean(s));
    if n.Some? && 0 <= n.value <= max then n else None
  }

  const MAX_PORT := 65535
  const MAX_ICMP := 255
  const MAX_SUMMARY := 160

  // ---------- vocabularies ----------

  datatype Action = Block | Pass

  function ActionOf(s: string): Option<Action> {
    if s == "block" then Some(Block) else if s == "pass" then Some(Pass) else None
  }

  function ActionName(a: Action): string {
    match a case Block => "block" case Pass => "pass"
  }

  function EventType(a: Action): string {
    match a case Block => "firewall_block" case Pass => "firewall_allow"
  }

  function Severity(a: Action): string {
    match a case Block => "medium" case Pass => "low"
  }

  predicate IsProtocol(s: string) {
    || s == "ah" || s == "carp" || s == "esp" || s == "gre" || s == "icmp" || s == "igmp" || s == "ipencap" || s == "ospf"
    || s == "pfsync" || s == "pim" || s == "sctp" || s == "tcp" || s == "udp"
  }

  predicate HasPorts(s: string) {
    s == "tcp" || s == "udp"
  }

  predicate IsIcmpWord(s: string) {
    || s == "maskreply" || s == "needfrag" || s == "parameterprob" || s == "paramprob" || s == "redirect" || s == "reply" || s == "request"
    || s == "timexceed" || s == "tstamp" || s == "tstampreply" || s == "unreach" || s == "unreachport" || s == "unreachproto"
  }

  predicate IsDirection(s: string) {
    s == "in" || s == "out"
  }

  // ---------- parsing ----------

  datatype Failure =
    | NotEnoughFields | UnsupportedIpVersion | UnsupportedProtocol | UnsupportedAction | InvalidIpAddress | InvalidPort
    | InvalidIcmpCode | InvalidIcmpType | InvalidIcmpDetails

  datatype Parsed = Parsed(
    ruleId: Option<string>,
    tracker: Option<string>,
    interface: Option<string>,
    action: Action,
    direction: Option<string>,
    ipVersion: string,
    protocol: string,
    sourceIp: string,
    destinationIp: string,
    ports: Option<(int, int)>,
    tcpFlags: Option<string>,
    icmpType: Value,
    icmpCode: Option<int>)

  datatype Parse = ParsedOk(parsed: Parsed) | Failed(why: Failure)

  datatype Icmp = IcmpOk(kind: Value, code: Option<int>) | IcmpBad(why: Failure)

  function At(fields: seq<string>, i: nat): string {
    if i < |fields| then fields[i] else ""
  }

  predicate DecimalAt(fields: seq<string>, i: nat) {
    IsDecimal(Clean(At(fields, i)))
  }

  /** The details each textual ICMP type demands. */
  predicate IcmpDetails(word: string, fields: seq<string>) {
    if word == "request" || word == "reply" || word == "tstamp" then DecimalAt(fields, 21) && DecimalAt(fields, 22)
    else if word == "tstampreply" then
      DecimalAt(fields, 21) && DecimalAt(fields, 22) && DecimalAt(fields, 23) && DecimalAt(fields, 24) && DecimalAt(fields, 25)
    else if word == "unreachproto" then ValidatedIp(At(fields, 21)).Some? && DecimalAt(fields, 22)
    else if word == "unreachport" then ValidatedIp(At(fields, 21)).Some? && DecimalAt(fields, 22) && Bounded(At(fields, 23), MAX_PORT).Some?
    else if word == "needfrag" then ValidatedIp(At(fields, 21)).Some? && DecimalAt(fields, 22)
    else Clean(At(fields, 21)) != ""
  }

  function ParseIcmp(fields: seq<string>): Icmp {
    var word := Lower(Clean(At(fields, 20)));
    var number := Bounded(word, MAX_ICMP);
    if number.Some? then
      var code := Bounded(Clean(At(fields, 21)), MAX_ICMP);
      if Clean(At(fields, 21)) != "" && code.None? then IcmpBad(InvalidIcmpCode) else IcmpOk(Number(number.value), code)
    else if !IsIcmpWord(word) then IcmpBad(InvalidIcmpType)
    else if !IcmpDetails(word, fields) then IcmpBad(InvalidIcmpDetails)
    else IcmpOk(Text(word), None)
  }

  function ParseFields(fields: seq<string>): Parse {
    if |fields| < 20 then Failed(NotEnoughFields)
    else
      var protocol := Lower(Clean(fields[16]));
      var action := ActionOf(Lower(Clean(fields[6])));
      if Clean(fields[8]) != "4" then Failed(UnsupportedIpVersion)
      else if !IsProtocol(protocol) then Failed(UnsupportedProtocol)
      else if action.None? then Failed(UnsupportedAction)
      else if ValidatedIp(fields[18]).None? || ValidatedIp(fields[19]).None? then Failed(InvalidIpAddress)
      else ParseProtocol(fields, action.value, protocol)
  }

  function BasicFields(fields: seq<string>, action: Action, protocol: string): Parsed
    requires |fields| >= 20
  {
    Parsed(Maybe(Clean(fields[0])), Maybe(Clean(fields[3])), Maybe(Clean(fields[4])), action, Maybe(Lower(Clean(fields[7]))), Clean(fields[8]),
           protocol, Clean(fields[18]), Clean(fields[19]), None, None, Null, None)
  }

  /** The fields from 20 on, read as the protocol demands. */
  function ParseProtocol(fields: seq<string>, action: Action, protocol: string): Parse
    requires |fields| >= 20
  {
    var parsed := BasicFields(fields, action, protocol);
    if HasPorts(protocol) then
      var source, destination := Bounded(At(fields, 20), MAX_PORT), Bounded(At(fields, 21), MAX_PORT);
      if source.None? || destination.None? then Failed(InvalidPort)
      else ParsedOk(parsed.(ports := Some((source.value, destination.value)),
                           tcpFlags := if protocol == "tcp" then Maybe(Upper(Clean(At(fields, 23)))) else None))
    else if protocol == "icmp" then
      match ParseIcmp(fields)
      case IcmpBad(why) => Failed(why)
      case IcmpOk(kind, code) => ParsedOk(parsed.(icmpType := kind, icmpCode := code))
    else ParsedOk(parsed)
  }

  // ---------- normalisation ----------

  datatype Key =
    | ActionKey | InterfaceKey | DirectionKey | IpVersionKey | ProtocolKey | SourceIpKey | DestinationIpKey | EventTypeCandidate | Utf8Replaced
    | TimestampStatus | TimestampReason | SourcePort | DestinationPort | TcpFlags | IcmpType | IcmpCode | RuleId | Tracker
    | SenderIp | RawLog | RawSyslog | SanitizedSummary

  type Payload = map<Key, Value>

  datatype RawPayload = Missing | NotADict | Dict(payload: Payload)

  datatype Event = Event(
    eventType: Value,
    severity: Value,
    sourceIp: Value,
    source: Value,
    sourceType: Value,
    timestamp: Value,
    message: Value,
    appName: Value,
    environment: Value,
    rawPayload: RawPayload)

  /** The keyword arguments of the normaliser. */
  datatype Options = Options(
    environment: Value,
    timestamp: Value,
    senderIp: string,
    summary: string,
    rawMessage: string,
    utf8Replaced: bool,
    status: string,
    reason: string)

  function OptionalText(s: Option<string>): Value {
    if s.Some? then Text(s.value) else Null
  }

  function OptionalNumber(n: Option<int>): Value {
    if n.Some? then Number(n.value) else Null
  }

  /** parsed.get(key) for the optional keys. */
  function Lookup(p: Parsed, key: Key): Value {
    match key
    case SourcePort => if p.ports.Some? then Number(p.ports.value.0) else Null
    case DestinationPort => if p.ports.Some? then Number(p.ports.value.1) else Null
    case TcpFlags => OptionalText(p.tcpFlags)
    case IcmpType => p.icmpType
    case IcmpCode => OptionalNumber(p.icmpCode)
    case RuleId => OptionalText(p.ruleId)
    case Tracker => OptionalText(p.tracker)
    case _ => Null
  }

  const OPTIONAL_KEYS := [SourcePort, DestinationPort, TcpFlags, IcmpType, IcmpCode, RuleId, Tracker]

  /** raw_payload[key] = value, when the guard lets it through. */
  function Put(payload: Payload, key: Key, value: Value, present: bool): Payload {
    if present then payload[key := value] else payload
  }

  function PutOptional(payload: Payload, p: Parsed, keys: seq<Key>): Payload {
    if keys == [] then payload
    else
      var last := keys[|keys| - 1];
      Put(PutOptional(payload, p, keys[..|keys| - 1]), last, Lookup(p, last), Lookup(p, last) != Null && Lookup(p, last) != Text(""))
  }

  function Required(p: Parsed, o: Options): Payload {
    map[ActionKey := Text(ActionName(p.action)), InterfaceKey := OptionalText(p.interface), DirectionKey := OptionalText(p.direction),
        IpVersionKey := Text(p.ipVersion), ProtocolKey := Text(p.protocol), SourceIpKey := Text(p.sourceIp),
        DestinationIpKey := Text(p.destinationIp), EventTypeCandidate := Text(EventType(p.action)), Utf8Replaced := Flag(o.utf8Replaced)]
  }

  function Timed(payload: Payload, o: Options): Payload {
    Put(Put(payload, TimestampStatus, Text(o.status), o.status != ""), TimestampReason, Text(o.reason), o.reason != "")
  }

  function Truncated(s: string): string {
    if |s| > MAX_SUMMARY then s[..MAX_SUMMARY] else s
  }

  function Logged(payload: Payload, o: Options): Payload {
    var summary := Clean(o.summary);
    Put(Put(Put(Put(payload, SenderIp, Text(Clean(o.senderIp)), o.senderIp != ""),
                RawLog, Text(summary), summary != ""),
            RawSyslog, Text(Clean(o.rawMessage)), Clean(o.rawMessage) != ""),
        SanitizedSummary, Text(Truncated(summary)), summary != "")
  }

  function PayloadOf(p: Parsed, o: Options): Payload {
    Logged(PutOptional(Timed(Required(p, o), o), p, OPTIONAL_KEYS), o)
  }

  function Message(p: Parsed): string {
    "pfSense " + Upper(p.protocol) + " traffic " + (if p.action.Block? then "blocked" else "allowed") + " from " + p.sourceIp + " to " + p.destinationIp
    + if p.ports.Some? then ":" + ShowInt(p.ports.value.1) else ""
  }

  function Environment(v: Value): string {
    if CleanValue(v) == "" then "prod" else CleanValue(v)
  }

  function Normalize(p: Parsed, o: Options): Event {
    Event(Text(EventType(p.action)), Text(Severity(p.action)), Text(p.sourceIp), Text("pfsense"), Text("firewall"), o.timestamp,
          Text(Message(p)), Text("pfsense_filterlog"), Text(Environment(o.environment)), Dict(PayloadOf(p, o)))
  }

  method NormalizePfsenseFilterlogEvent(p: Parsed, o: Options) returns (event: Event)
    ensures event == Normalize(p, o)
  {
    var payload := Timed(Required(p, o), o);
    var keys := OPTIONAL_KEYS;
    for i := 0 to |keys|
      invariant payload == PutOptional(Timed(Required(p, o), o), p, keys[..i])
    {
      assert keys[..i + 1][..i] == keys[..i];
      var value := Lookup(p, keys[i]);
      if value != Null && value != Text("") {
        payload := payload[keys[i] := value];
      }
    }
    assert keys[..|keys|] == keys;
    payload := Logged(payload, o);
    return Event(Text(EventType(p.action)), Text(Severity(p.action)), Text(p.sourceIp), Text("pfsense"), Text("firewall"), o.timestamp,
                 Text(Message(p)), Text("pfsense_filterlog"), Text(Environment(o.environment)), Dict(payload));
  }

  // ---------- validation ----------

  datatype Rejection = MissingFields | BadEventType | BadSeverity | BadSource | BadSourceIp | BadPayload

  datatype Verdict = Accepted(event: Event) | Rejected(why: Rejection)

  function Get(payload: Payload, key: Key): Value {
    if key in payload then payload[key] else Null
  }

  const REQUIRED_KEYS := [ActionKey, InterfaceKey, DirectionKey, IpVersionKey, ProtocolKey, SourceIpKey, DestinationIpKey]

  predicate HasKeys(payload: Payload, keys: seq<Key>) {
    forall i :: 0 <= i < |keys| ==> keys[i] in payload
  }

  /** Absent and None ports pass; anything else must be a port. */
  predicate PortOk(v: Value) {
    v == Null || Bounded(Show(v), MAX_PORT).Some?
  }

  predicate IdentifierOk(v: Value) {
    v == Null || v.Number? || v.Flag? || (v.Text? && Clean(v.text) != "")
  }

  predicate IcmpTypeOk(v: Value) {
    Bounded(Show(v), MAX_ICMP).Some? || IsIcmpWord(Lower(CleanValue(v)))
  }

  predicate DirectionOk(v: Value) {
    v == Null || Lower(CleanValue(v)) == "" || IsDirection(Lower(CleanValue(v)))
  }

  /** TCP and UDP need both ports; ICMP may not carry any. */
  predicate PortsFit(payload: Payload, protocol: string) {
    && (HasPorts(protocol) ==> Get(payload, SourcePort) != Null && Get(payload, DestinationPort) != Null)
    && (protocol == "icmp" ==> SourcePort !in payload && DestinationPort !in payload)
  }

  /** The fields every event has. */
  predicate IdentityOk(payload: Payload, eventType: string) {
    && (var action := ActionOf(Lower(CleanValue(Get(payload, ActionKey)))); action.Some? && EventType(action.value) == eventType)
    && CleanValue(Get(payload, InterfaceKey)) != ""
    && DirectionOk(Get(payload, DirectionKey))
    && CleanValue(Get(payload, IpVersionKey)) == "4"
    && IsProtocol(Lower(CleanValue(Get(payload, ProtocolKey))))
    && ValidatedIp(Show(Get(payload, SourceIpKey))).Some? && ValidatedIp(Show(Get(payload, DestinationIpKey))).Some?
  }

  /** The fields that depend on the protocol. */
  predicate DetailsOk(payload: Payload, protocol: string) {
    && PortOk(Get(payload, SourcePort)) && PortOk(Get(payload, DestinationPort)) && PortsFit(payload, protocol)
    && (IcmpType in payload ==> IcmpTypeOk(payload[IcmpType]))
    && (IcmpCode in payload ==> Bounded(Show(payload[IcmpCode]), MAX_ICMP).Some?)
    && IdentifierOk(Get(payload, RuleId)) && IdentifierOk(Get(payload, Tracker))
  }

  predicate PayloadOk(payload: Payload, eventType: string) {
    HasKeys(payload, REQUIRED_KEYS) && IdentityOk(payload, eventType) && DetailsOk(payload, Lower(CleanValue(Get(payload, ProtocolKey))))
  }

  /** None, or a string of white space only. */
  predicate Absent(v: Value) {
    v == Null || (v.Text? && Strip(v.text) == "")
  }

  predicate HasFields(e: Event) {
    && !Absent(e.eventType) && !Absent(e.severity) && !Absent(e.sourceIp) && !Absent(e.source) && !Absent(e.sourceType)
    && !Absent(e.message) && !Absent(e.appName) && !Absent(e.environment) && e.rawPayload != Missing
  }

  function Validate(e: Event): Verdict {
    var eventType, severity := Strip(Show(e.eventType)), Lower(Strip(Show(e.severity)));
    if !HasFields(e) then Rejected(MissingFields)
    else if eventType != "firewall_block" && eventType != "firewall_allow" then Rejected(BadEventType)
    else if severity != "low" && severity != "medium" && severity != "high" && severity != "critical" then Rejected(BadSeverity)
    else if Strip(Show(e.source)) != "pfsense" || Strip(Show(e.sourceType)) != "firewall" then Rejected(BadSource)
    else if ValidatedIp(Show(e.sourceIp)).None? then Rejected(BadSourceIp)
    else if e.rawPayload.NotADict? || !PayloadOk(e.rawPayload.payload, eventType) then Rejected(BadPayload)
    else
      Accepted(Event(Text(eventType), Text(severity), Text(Clean(Show(e.sourceIp))), Text(Strip(Show(e.source))), Text(Strip(Show(e.sourceType))),
                     e.timestamp, Text(Strip(Show(e.message))), Text(Strip(Show(e.appName))), Text(Environment(e.environment)), e.rawPayload))
  }

  method CheckPorts(payload: Payload) returns (ok: bool)
    ensures ok <==> PortOk(Get(payload, SourcePort)) && PortOk(Get(payload, DestinationPort))
  {
    var keys := [SourcePort, DestinationPort];
    for i := 0 to |keys|
      invariant forall j :: 0 <= j < i ==> PortOk(Get(payload, keys[j]))
    {
      if !PortOk(Get(payload, keys[i])) {
        assert i == 0 || i == 1;
        return false;
      }
    }
    assert PortOk(Get(payload, keys[0])) && PortOk(Get(payload, keys[1]));
    return true;
  }

  method CheckIdentifiers(payload: Payload) returns (ok: bool)
    ensures ok <==> IdentifierOk(Get(payload, RuleId)) && IdentifierOk(Get(payload, Tracker))
  {
    var keys := [RuleId, Tracker];
    for i := 0 to |keys|
      invariant forall j :: 0 <= j < i ==> IdentifierOk(Get(payload, keys[j]))
    {
      if !IdentifierOk(Get(payload, keys[i])) {
        assert i == 0 || i == 1;
        return false;
      }
    }
    assert IdentifierOk(Get(payload, keys[0])) && IdentifierOk(Get(payload, keys[1]));
    return true;
  }

  method CheckRequired(payload: Payload) returns (ok: bool)
    ensures ok == HasKeys(payload, REQUIRED_KEYS)
  {
    var required := REQUIRED_KEYS;
    for i := 0 to |required|
      invariant forall j :: 0 <= j < i ==> required[j] in payload
    {
      if required[i] !in payload { return false; }
    }
    return true;
  }

  /** _validate_pfsense_raw_payload; false is its ValueError. */
  method ValidateRawPayload(payload: Payload, eventType: string) returns (ok: bool)
    ensures ok == PayloadOk(payload, eventType)
  {
    var required := CheckRequired(payload);
    if !required { return false; }
    if !IdentityOk(payload, eventType) { return false; }
    var protocol := Lower(CleanValue(Get(payload, ProtocolKey)));
    var portsOk := CheckPorts(payload);
    if !portsOk || !PortsFit(payload, protocol) { return false; }
    if IcmpType in payload && !IcmpTypeOk(payload[IcmpType]) { return false; }
    if IcmpCode in payload && Bounded(Show(payload[IcmpCode]), MAX_ICMP).None? { return false; }
    ok := CheckIdentifiers(payload);
  }
}
