/** Parser and validator agree: which parsed and normalised events the ingest validator takes, and that it takes them unchanged. */
module PfsenseAgreement {
  import opened Common
  import opened Text
  import opened PfsenseFilterlog

  // ---------- cleaning is idempotent ----------

  predicate IsClean(s: string) {
    Trimmed(s) && forall i :: 0 <= i < |s| ==> !IsUnsafe(s[i])
  }

  lemma CleanIsClean(s: string)
    ensures IsClean(Clean(s))
  {
    var w := WithoutUnsafe(s);
    StripKeepsCharacters(w);
    forall i | 0 <= i < |Clean(s)|
      ensures !IsUnsafe(Clean(s)[i])
    {
      assert Clean(s)[i] in w;
    }
  }

  lemma CleanFixed(s: string)
    requires IsClean(s)
    ensures Clean(s) == s && Strip(s) == s
  {
  }

  lemma LowerFixed(s: string)
    requires IsClean(s)
    ensures IsClean(Lower(s)) && Lower(Lower(s)) == Lower(s)
    ensures Lower(s) == "" <==> s == ""
  {
    hide Lower, IsSpace, IsUnsafe, LowerChar;
    forall i | 0 <= i < |s|
      ensures !IsUnsafe(Lower(s)[i]) && IsSpace(Lower(s)[i]) == IsSpace(s[i]) && LowerChar(Lower(s)[i]) == Lower(s)[i]
    {
      LowerCharFixed(s[i]);
    }
    assert Lower(Lower(s)) == Lower(s);
  }

  lemma LowerCharFixed(c: char)
    ensures IsUnsafe(LowerChar(c)) == IsUnsafe(c) && IsSpace(LowerChar(c)) == IsSpace(c) && LowerChar(LowerChar(c)) == LowerChar(c)
  {
  }

  /** What the parser stores reads the same when the validator cleans and folds it again. */
  lemma CleanTwice(s: string)
    ensures IsClean(Clean(s)) && Clean(Clean(s)) == Clean(s)
    ensures IsClean(Lower(Clean(s))) && Clean(Lower(Clean(s))) == Lower(Clean(s)) && Lower(Lower(Clean(s))) == Lower(Clean(s))
  {
    CleanIsClean(s);
    CleanFixed(Clean(s));
    LowerFixed(Clean(s));
    CleanFixed(Lower(Clean(s)));
  }

  /** Lower-case words and digits come through unchanged. */
  predicate IsPlain(s: string) {
    s != "" && forall i :: 0 <= i < |s| ==> 'a' <= s[i] <= 'z' || IsDigit(s[i]) || s[i] == '_'
  }

  lemma PlainFixed(s: string)
    requires IsPlain(s)
    ensures IsClean(s) && Clean(s) == s && Lower(s) == s && Strip(s) == s
  {
    hide Clean, Lower, Strip;
    assert forall i :: 0 <= i < |s| ==> !IsUnsafe(s[i]) && LowerChar(s[i]) == s[i];
    assert Lower(s) == s;
    assert !IsSpace(s[0]) && !IsSpace(s[|s| - 1]);
    CleanFixed(s);
  }

  // ---------- numbers read back ----------

  lemma {:induction false} DigitsRead(s: string)
    requires forall i :: 0 <= i < |s| ==> IsDigit(s[i])
    ensures ReadDigits(s) == ReadNat(s)
    decreases |s|
  {
    if |s| > 1 {
      DigitsRead(s[..|s| - 1]);
    }
  }

  lemma NumberReadsBack(n: int, max: int)
    requires 0 <= n <= max
    ensures IsClean(ShowInt(n)) && Bounded(ShowInt(n), max) == Some(n)
  {
    hide Clean, ReadDigits, ReadNat, ShowNat, IsClean, Lower, Strip;
    var s := ShowNat(n);
    ReadShowNat(n);
    DigitsRead(s);
    assert IsPlain(s);
    PlainFixed(s);
    assert IsDigit(s[0]);
  }

  // ---------- what the parser guarantees ----------

  predicate Folded(s: string) {
    IsClean(s) && Lower(s) == s
  }

  predicate WellText(s: Option<string>) {
    s.Some? ==> IsClean(s.value) && s.value != ""
  }

  predicate WellIcmp(kind: Value) {
    match kind
    case Number(n) => 0 <= n <= MAX_ICMP
    case Text(word) => Folded(word) && IsIcmpWord(word)
    case _ => false
  }

  predicate WellIdentity(p: Parsed) {
    && WellText(p.interface) && WellText(p.direction)
    && (p.direction.Some? ==> Folded(p.direction.value))
    && p.ipVersion == "4"
    && Folded(p.protocol) && IsProtocol(p.protocol)
    && IsClean(p.sourceIp) && IsIPv4(p.sourceIp) && IsClean(p.destinationIp) && IsIPv4(p.destinationIp)
  }

  predicate WellDetails(p: Parsed) {
    && WellText(p.ruleId) && WellText(p.tracker)
    && (p.ports.Some? <==> HasPorts(p.protocol))
    && (p.ports.Some? ==> 0 <= p.ports.value.0 <= MAX_PORT && 0 <= p.ports.value.1 <= MAX_PORT)
    && (p.icmpType != Null ==> WellIcmp(p.icmpType))
    && (p.icmpCode.Some? ==> 0 <= p.icmpCode.value <= MAX_ICMP)
  }

  predicate WellParsed(p: Parsed) {
    WellIdentity(p) && WellDetails(p)
  }

  lemma BasicFieldsAreWell(fields: seq<string>, action: Action, protocol: string)
    requires |fields| >= 20 && Clean(fields[8]) == "4" && ValidatedIp(fields[18]).Some? && ValidatedIp(fields[19]).Some?
    ensures var p := BasicFields(fields, action, protocol);
            && WellText(p.ruleId) && WellText(p.tracker) && WellText(p.interface) && WellText(p.direction)
            && (p.direction.Some? ==> Folded(p.direction.value))
            && IsClean(p.sourceIp) && IsClean(p.destinationIp)
  {
    hide Clean, Lower, IsClean, IsIPv4;
    CleanTwice(fields[0]);
    CleanTwice(fields[3]);
    CleanTwice(fields[4]);
    CleanTwice(fields[7]);
    CleanTwice(fields[18]);
    CleanTwice(fields[19]);
  }

  lemma IcmpIsWell(fields: seq<string>)
    ensures ParseIcmp(fields).IcmpOk? ==>
              && WellIcmp(ParseIcmp(fields).kind)
              && (ParseIcmp(fields).code.Some? ==> 0 <= ParseIcmp(fields).code.value <= MAX_ICMP)
  {
    hide Clean, Lower, IsIcmpWord, IcmpDetails, ReadPythonInt, IsClean, At;
    CleanTwice(At(fields, 20));
  }

  lemma ProtocolIsWell(fields: seq<string>, action: Action, protocol: string)
    requires |fields| >= 20 && Clean(fields[8]) == "4" && ValidatedIp(fields[18]).Some? && ValidatedIp(fields[19]).Some?
    requires Folded(protocol) && IsProtocol(protocol)
    ensures ParseProtocol(fields, action, protocol).ParsedOk? ==>
              && WellParsed(ParseProtocol(fields, action, protocol).parsed)
              && ParseProtocol(fields, action, protocol).parsed.interface == Maybe(Clean(fields[4]))
              && ParseProtocol(fields, action, protocol).parsed.direction == Maybe(Lower(Clean(fields[7])))
  {
    hide Clean, Lower, Upper, IsProtocol, IsIPv4, IsClean, ReadPythonInt, At, ParseIcmp, WellIcmp;
    BasicFieldsAreWell(fields, action, protocol);
    IcmpIsWell(fields);
  }

  lemma ParsedIsWell(fields: seq<string>)
    ensures ParseFields(fields).ParsedOk? ==>
              && |fields| >= 20
              && WellParsed(ParseFields(fields).parsed)
              && ParseFields(fields).parsed.interface == Maybe(Clean(fields[4]))
              && ParseFields(fields).parsed.direction == Maybe(Lower(Clean(fields[7])))
  {
    hide Clean, Lower, ActionOf, IsProtocol, ValidatedIp, ParseProtocol, IsClean, WellParsed;
    if ParseFields(fields).ParsedOk? {
      var protocol := Lower(Clean(fields[16]));
      CleanTwice(fields[16]);
      ProtocolIsWell(fields, ActionOf(Lower(Clean(fields[6]))).value, protocol);
    }
  }

  // ---------- what the payload holds ----------

  predicate Stored(v: Value) {
    v != Null && v != Text("")
  }

  lemma OptionalKeys(payload: Payload, p: Parsed, key: Key)
    ensures var after := PutOptional(payload, p, OPTIONAL_KEYS);
            && (key !in OPTIONAL_KEYS ==> (key in after <==> key in payload) && Get(after, key) == Get(payload, key))
            && (key in OPTIONAL_KEYS && key !in payload ==>
                  (key in after <==> Stored(Lookup(p, key))) && Get(after, key) == if Stored(Lookup(p, key)) then Lookup(p, key) else Null)
  {
    OptionalKeysUpTo(payload, p, OPTIONAL_KEYS, key);
  }

  lemma {:induction false} OptionalKeysUpTo(payload: Payload, p: Parsed, keys: seq<Key>, key: Key)
    ensures var after := PutOptional(payload, p, keys);
            && (key !in keys ==> (key in after <==> key in payload) && Get(after, key) == Get(payload, key))
            && (key in keys && key !in payload ==>
                  (key in after <==> Stored(Lookup(p, key))) && Get(after, key) == if Stored(Lookup(p, key)) then Lookup(p, key) else Null)
    decreases |keys|
  {
    if keys != [] {
      OptionalKeysUpTo(payload, p, keys[..|keys| - 1], key);
      assert keys == keys[..|keys| - 1] + [keys[|keys| - 1]];
    }
  }

  predicate IsLogKey(key: Key) {
    key.SenderIp? || key.RawLog? || key.RawSyslog? || key.SanitizedSummary? || key.TimestampStatus? || key.TimestampReason?
  }

  function Entry(payload: Payload, key: Key): Option<Value> {
    if key in payload then Some(payload[key]) else None
  }

  lemma PutApart(payload: Payload, k: Key, v: Value, present: bool, key: Key)
    requires k != key
    ensures Entry(Put(payload, k, v, present), key) == Entry(payload, key)
  {
  }

  /** Timestamps, sender and log texts have keys of their own. */
  lemma LogKeysApart(payload: Payload, o: Options, key: Key)
    requires !IsLogKey(key)
    ensures Entry(Timed(payload, o), key) == Entry(payload, key) == Entry(Logged(payload, o), key)
  {
    hide Clean, Truncated, Put, Entry;
    forall p, k, v, b | k != key
      ensures Entry(Put(p, k, v, b), key) == Entry(p, key)
    {
      PutApart(p, k, v, b, key);
    }
  }

  lemma RequiredHas(p: Parsed, o: Options, key: Key)
    requires !IsLogKey(key)
    ensures key in Required(p, o) <==> key !in OPTIONAL_KEYS
  {
    hide EventType, ActionName, OptionalText;
  }

  /** The validator finds every required field and every stored optional one. */
  lemma PayloadHolds(p: Parsed, o: Options, key: Key)
    requires !IsLogKey(key)
    ensures var payload := PayloadOf(p, o);
            if key in OPTIONAL_KEYS then
              (key in payload <==> Stored(Lookup(p, key))) && Get(payload, key) == if Stored(Lookup(p, key)) then Lookup(p, key) else Null
            else key in payload && Get(payload, key) == Get(Required(p, o), key)
  {
    hide Lookup, PutOptional, Required, Timed, Logged, Stored;
    var required := Required(p, o);
    var filled := PutOptional(Timed(required, o), p, OPTIONAL_KEYS);
    RequiredHas(p, o, key);
    LogKeysApart(required, o, key);
    OptionalKeys(Timed(required, o), p, key);
    LogKeysApart(filled, o, key);
  }

  // ---------- the verdict ----------

  predicate IsRequiredKey(key: Key) {
    key.ActionKey? || key.InterfaceKey? || key.DirectionKey? || key.IpVersionKey? || key.ProtocolKey? || key.SourceIpKey? || key.DestinationIpKey?
  }

  lemma RequiredKept(p: Parsed, o: Options, key: Key)
    requires IsRequiredKey(key)
    ensures key in PayloadOf(p, o) && Get(PayloadOf(p, o), key) == Get(Required(p, o), key)
  {
    hide PayloadOf, Required, Lookup, Get;
    PayloadHolds(p, o, key);
  }

  lemma RequiredValues(p: Parsed, o: Options)
    ensures var payload := PayloadOf(p, o);
            && Get(payload, ActionKey) == Text(ActionName(p.action))
            && Get(payload, InterfaceKey) == OptionalText(p.interface)
            && Get(payload, DirectionKey) == OptionalText(p.direction)
            && Get(payload, IpVersionKey) == Text(p.ipVersion)
            && Get(payload, ProtocolKey) == Text(p.protocol)
            && Get(payload, SourceIpKey) == Text(p.sourceIp)
            && Get(payload, DestinationIpKey) == Text(p.destinationIp)
  {
    hide PayloadOf, ActionName, EventType, OptionalText;
    RequiredKept(p, o, ActionKey);
    RequiredKept(p, o, InterfaceKey);
    RequiredKept(p, o, DirectionKey);
    RequiredKept(p, o, IpVersionKey);
    RequiredKept(p, o, ProtocolKey);
    RequiredKept(p, o, SourceIpKey);
    RequiredKept(p, o, DestinationIpKey);
  }

  lemma DirectionVerdict(direction: Option<string>)
    requires WellText(direction) && (direction.Some? ==> Folded(direction.value))
    ensures DirectionOk(OptionalText(direction)) <==> direction.None? || IsDirection(direction.value)
  {
    hide Clean, Lower, IsDirection, IsClean;
    if direction.Some? { CleanFixed(direction.value); }
  }

  lemma InterfaceVerdict(interface: Option<string>)
    requires WellText(interface)
    ensures CleanValue(OptionalText(interface)) != "" <==> interface.Some?
  {
    hide Clean, IsClean;
    EmptyFixed();
    if interface.Some? { CleanFixed(interface.value); }
  }

  lemma SameFolded(s: string)
    requires Folded(s)
    ensures Lower(CleanValue(Text(s))) == s
  {
    hide Lower, IsClean, Clean;
    CleanFixed(s);
  }

  lemma SameIp(s: string)
    requires IsClean(s) && IsIPv4(s)
    ensures ValidatedIp(Show(Text(s))) == Some(s)
  {
    hide IsIPv4, IsClean, Clean;
    CleanFixed(s);
  }

  lemma IdentityVerdict(p: Parsed, o: Options)
    requires WellIdentity(p)
    ensures IdentityOk(PayloadOf(p, o), EventType(p.action)) <==> p.interface.Some? && (p.direction.None? || IsDirection(p.direction.value))
  {
    hide Clean, Lower, Show, CleanValue, IsProtocol, IsIPv4, IsDirection, IsClean, PayloadOf, ActionOf, EventType, ActionName, Get, DirectionOk,
         OptionalText, WellText, ValidatedIp, Folded;
    RequiredValues(p, o);
    DirectionVerdict(p.direction);
    InterfaceVerdict(p.interface);
    ActionFolded(p.action);
    FourFixed();
    SameFolded(p.protocol);
    SameIp(p.sourceIp);
    SameIp(p.destinationIp);
  }

  lemma FourFixed()
    ensures CleanValue(Text("4")) == "4"
  {
    hide Clean, Lower, Strip, IsClean;
    assert IsPlain("4");
    PlainFixed("4");
  }

  lemma FixedTexts()
    ensures Clean("") == "" && Lower("") == ""
    ensures Strip("pfsense") == "pfsense" && Strip("firewall") == "firewall" && Strip("pfsense_filterlog") == "pfsense_filterlog"
    ensures Clean("prod") == "prod" && Strip("prod") == "prod"
  {
    hide Clean, Lower, Strip, IsClean;
    assert IsPlain("pfsense") && IsPlain("firewall") && IsPlain("pfsense_filterlog") && IsPlain("prod");
    PlainFixed("pfsense");
    PlainFixed("firewall");
    PlainFixed("pfsense_filterlog");
    PlainFixed("prod");
    EmptyFixed();
  }

  lemma EmptyFixed()
    ensures Clean("") == "" && Lower("") == ""
  {
  }

  lemma ActionFolded(a: Action)
    ensures ActionOf(Lower(CleanValue(Text(ActionName(a))))) == Some(a)
  {
    hide Clean, Lower, IsClean, ActionOf;
    NamesPlain(a);
    PlainFixed(ActionName(a));
  }

  lemma NamesPlain(a: Action)
    ensures IsPlain(ActionName(a)) && ActionOf(ActionName(a)) == Some(a)
  {
  }

  lemma PortsVerdict(p: Parsed, o: Options)
    requires WellDetails(p)
    ensures var payload := PayloadOf(p, o);
            PortOk(Get(payload, SourcePort)) && PortOk(Get(payload, DestinationPort)) && PortsFit(payload, p.protocol)
  {
    hide IsClean, PayloadOf, Bounded, ShowInt, WellIcmp, WellText;
    PayloadHolds(p, o, SourcePort);
    PayloadHolds(p, o, DestinationPort);
    if p.ports.Some? {
      NumberReadsBack(p.ports.value.0, MAX_PORT);
      NumberReadsBack(p.ports.value.1, MAX_PORT);
    }
  }

  lemma IcmpFieldsVerdict(p: Parsed, o: Options)
    requires WellDetails(p)
    ensures var payload := PayloadOf(p, o);
            && (IcmpType in payload ==> IcmpTypeOk(payload[IcmpType]))
            && (IcmpCode in payload ==> Bounded(Show(payload[IcmpCode]), MAX_ICMP).Some?)
  {
    hide IsClean, PayloadOf, Bounded, ShowInt, WellIcmp, WellText, IcmpTypeOk, HasPorts;
    PayloadHolds(p, o, IcmpType);
    PayloadHolds(p, o, IcmpCode);
    if p.icmpCode.Some? { NumberReadsBack(p.icmpCode.value, MAX_ICMP); }
    if p.icmpType != Null { IcmpVerdict(p.icmpType); }
  }

  lemma IdentifierVerdict(s: Option<string>)
    requires WellText(s)
    ensures IdentifierOk(OptionalText(s)) && IdentifierOk(Null)
  {
    hide IsClean, Clean;
    if s.Some? { CleanFixed(s.value); }
  }

  lemma IdentifiersVerdict(p: Parsed, o: Options)
    requires WellDetails(p)
    ensures var payload := PayloadOf(p, o); IdentifierOk(Get(payload, RuleId)) && IdentifierOk(Get(payload, Tracker))
  {
    hide IsClean, Clean, PayloadOf, WellIcmp, HasPorts, IdentifierOk, OptionalText, WellText, Stored, Get;
    PayloadHolds(p, o, RuleId);
    PayloadHolds(p, o, Tracker);
    IdentifierVerdict(p.ruleId);
    IdentifierVerdict(p.tracker);
  }

  lemma DetailsVerdict(p: Parsed, o: Options)
    requires WellDetails(p)
    ensures DetailsOk(PayloadOf(p, o), p.protocol)
  {
    hide PayloadOf, Bounded, IcmpTypeOk, PortOk, PortsFit, IdentifierOk, WellDetails, Get;
    PortsVerdict(p, o);
    IcmpFieldsVerdict(p, o);
    IdentifiersVerdict(p, o);
  }

  lemma IcmpVerdict(kind: Value)
    requires WellIcmp(kind)
    ensures IcmpTypeOk(kind)
  {
    hide Clean, Lower, IsClean, IsIcmpWord, ShowInt;
    match kind
    case Number(n) => NumberReadsBack(n, MAX_ICMP);
    case Text(word) => CleanFixed(word);
    case _ =>
  }

  lemma MessageTrimmed(p: Parsed)
    requires WellParsed(p)
    ensures Strip(Message(p)) == Message(p) && Message(p) != ""
  {
    hide Clean, Lower, Upper, IsProtocol, ShowInt, Bounded;
    var m := Message(p);
    assert m[0] == 'p';
    assert p.destinationIp != "" by { NotBlank(p.destinationIp); }
    if p.ports.Some? {
      NumberReadsBack(p.ports.value.1, MAX_PORT);
      var port := ShowInt(p.ports.value.1);
      assert port != "" by { ShowsSomething(p.ports.value.1); }
      assert m[|m| - 1] == port[|port| - 1];
    } else {
      assert m[|m| - 1] == p.destinationIp[|p.destinationIp| - 1];
    }
    assert Trimmed(m);
  }

  lemma ShowsSomething(n: int)
    ensures ShowInt(n) != ""
  {
  }

  lemma NotBlank(s: string)
    requires IsIPv4(s)
    ensures s != ""
  {
  }

  lemma EnvironmentTwice(v: Value)
    ensures Environment(Text(Environment(v))) == Environment(v) && Strip(Environment(v)) == Environment(v) != ""
  {
    hide Clean, IsClean, Strip;
    CleanIsClean(Show(v));
    CleanFixed(Clean(Show(v)));
    FixedTexts();
  }

  /**
   For every field list, protocol and ICMP variant: a parsed and normalised event is accepted exactly when its interface is
   not blank and its direction is blank, "in" or "out"; it is then returned as it was, and otherwise only its payload is refused.
   */
  lemma AcceptedExactlyWhen(fields: seq<string>, o: Options)
    ensures ParseFields(fields).ParsedOk? ==>
              && |fields| >= 20
              && var event, direction := Normalize(ParseFields(fields).parsed, o), Lower(Clean(fields[7]));
                 Validate(event) == if Clean(fields[4]) != "" && (direction == "" || IsDirection(direction)) then Accepted(event) else Rejected(BadPayload)
  {
    hide ParseFields, Clean, Lower, IsDirection, Validate, Normalize, WellParsed;
    if ParseFields(fields).ParsedOk? {
      ParsedIsWell(fields);
      NormalizedVerdict(ParseFields(fields).parsed, o);
    }
  }

  lemma NormalizedVerdict(p: Parsed, o: Options)
    requires WellParsed(p)
    ensures var event := Normalize(p, o);
            Validate(event) == if p.interface.Some? && (p.direction.None? || IsDirection(p.direction.value)) then Accepted(event) else Rejected(BadPayload)
  {
    hide Clean, Lower, Strip, PayloadOf, PayloadOk, Message, Environment, IsIPv4, IsProtocol, IsDirection, IsClean;
    PayloadVerdict(p, o);
    MessageTrimmed(p);
    EnvironmentTwice(o.environment);
    CleanFixed(p.sourceIp);
    NotBlank(p.sourceIp);
    FixedTexts();
    LabelsFixed(p.action);
  }

  lemma LabelsFixed(a: Action)
    ensures Strip(EventType(a)) == EventType(a) && Strip(Severity(a)) == Severity(a) == Lower(Severity(a))
  {
    hide Clean, Lower, Strip, IsClean;
    assert IsPlain("firewall_block") && IsPlain("firewall_allow") && IsPlain("medium") && IsPlain("low");
    PlainFixed("firewall_block");
    PlainFixed("firewall_allow");
    PlainFixed("medium");
    PlainFixed("low");
  }

  lemma PayloadVerdict(p: Parsed, o: Options)
    requires WellParsed(p)
    ensures PayloadOk(PayloadOf(p, o), EventType(p.action)) <==> p.interface.Some? && (p.direction.None? || IsDirection(p.direction.value))
  {
    hide Clean, Lower, PayloadOf, IsDirection, IsClean, IdentityOk, DetailsOk, IsProtocol, IsIPv4, EventType, WellIcmp;
    RequiredValues(p, o);
    var payload := PayloadOf(p, o);
    forall i | 0 <= i < |REQUIRED_KEYS|
      ensures REQUIRED_KEYS[i] in payload
    {
      RequiredKept(p, o, REQUIRED_KEYS[i]);
    }
    IdentityVerdict(p, o);
    DetailsVerdict(p, o);
    CleanFixed(p.protocol);
  }

  // ---------- what an event says about its fields ----------

  predicate ReadsAs(v: Value, field: string) {
    v.Number? && ReadPythonInt(Clean(field)) == Some(v.number)
  }

  lemma PortsCarried(fields: seq<string>, o: Options)
    ensures ParseFields(fields).ParsedOk? ==>
              && |fields| >= 20
              && var payload := PayloadOf(ParseFields(fields).parsed, o);
                 if HasPorts(Lower(Clean(fields[16]))) then
                   ReadsAs(Get(payload, SourcePort), At(fields, 20)) && ReadsAs(Get(payload, DestinationPort), At(fields, 21))
                 else SourcePort !in payload && DestinationPort !in payload
  {
    hide Clean, Lower, ReadPythonInt, PayloadOf, ParseIcmp, IsProtocol, IsIPv4, ActionOf, At;
    if ParseFields(fields).ParsedOk? {
      PayloadHolds(ParseFields(fields).parsed, o, SourcePort);
      PayloadHolds(ParseFields(fields).parsed, o, DestinationPort);
    }
  }

  /** Addresses, protocol, ports and the block-or-allow verdict reach the event from the fields they were logged in. */
  lemma EventCarriesFields(fields: seq<string>, o: Options)
    ensures ParseFields(fields).ParsedOk? ==>
              && |fields| >= 20
              && var event := Normalize(ParseFields(fields).parsed, o);
                 var payload := event.rawPayload.payload;
                 && event.sourceIp == Get(payload, SourceIpKey) == Text(Clean(fields[18]))
                 && Get(payload, DestinationIpKey) == Text(Clean(fields[19]))
                 && Get(payload, ProtocolKey) == Text(Lower(Clean(fields[16])))
                 && (event.eventType == Text("firewall_block") <==> Lower(Clean(fields[6])) == "block")
                 && (event.eventType == Text("firewall_allow") <==> Lower(Clean(fields[6])) == "pass")
                 && (if HasPorts(Lower(Clean(fields[16]))) then
                       ReadsAs(Get(payload, SourcePort), At(fields, 20)) && ReadsAs(Get(payload, DestinationPort), At(fields, 21))
                     else SourcePort !in payload && DestinationPort !in payload)
  {
    hide Clean, Lower, PayloadOf, ParseIcmp, IsProtocol, IsIPv4, ReadsAs, HasPorts, Message, Environment, Bounded, Upper, At;
    if ParseFields(fields).ParsedOk? {
      RequiredValues(ParseFields(fields).parsed, o);
      PortsCarried(fields, o);
      TypesDiffer();
    }
  }

  // ---------- such events exist ----------

  lemma {:induction false} SplitAtDot(a: string, rest: string)
    requires forall i :: 0 <= i < |a| ==> a[i] != '.'
    ensures SplitDots(a) == [a] && SplitDots(a + "." + rest) == [a] + SplitDots(rest)
    decreases |a|
  {
    if a == "" {
      assert "" + "." + rest == ['.'] + rest;
    } else {
      SplitAtDot(a[1..], rest);
      assert (a + "." + rest)[1..] == a[1..] + "." + rest;
      assert [a[0]] + a[1..] == a;
    }
  }

  /** Four octets joined by dots are an address. */
  lemma DottedQuad(a: string, b: string, c: string, d: string)
    requires IsOctet(a) && IsOctet(b) && IsOctet(c) && IsOctet(d)
    ensures IsIPv4(a + "." + (b + "." + (c + "." + d)))
  {
    hide SplitDots, IsOctet, ReadNat;
    OctetHasNoDot(a);
    OctetHasNoDot(b);
    OctetHasNoDot(c);
    OctetHasNoDot(d);
    SplitAtDot(a, b + "." + (c + "." + d));
    SplitAtDot(b, c + "." + d);
    SplitAtDot(c, d);
    SplitAtDot(d, "");
    assert SplitDots(a + "." + (b + "." + (c + "." + d))) == [a, b, c, d];
  }

  lemma OctetHasNoDot(a: string)
    requires IsOctet(a)
    ensures forall i :: 0 <= i < |a| ==> a[i] != '.'
  {
    hide ReadNat;
  }

  /** A TCP block logged on em0. */
  function TcpBlock(from: string, to: string, source: nat, destination: nat): seq<string> {
    ["7", "", "", "99", "em0", "match", "block", "in", "4", "", "", "", "", "", "", "", "tcp", "", from, to, ShowNat(source), ShowNat(destination)]
  }

  lemma WordsFixed()
    ensures Clean("4") == "4" && Lower(Clean("tcp")) == "tcp" && Lower(Clean("block")) == "block" && Clean("em0") == "em0" && Lower(Clean("in")) == "in"
  {
    hide Clean, Lower, Strip, IsClean;
    assert IsPlain("4") && IsPlain("tcp") && IsPlain("block") && IsPlain("em0") && IsPlain("in");
    PlainFixed("4");
    PlainFixed("tcp");
    PlainFixed("block");
    PlainFixed("em0");
    PlainFixed("in");
  }

  lemma TcpBlockParses(fields: seq<string>, source: nat, destination: nat)
    requires |fields| == 22 && fields[20] == ShowNat(source) && fields[21] == ShowNat(destination)
    requires source <= MAX_PORT && destination <= MAX_PORT
    requires Clean(fields[8]) == "4" && Lower(Clean(fields[16])) == "tcp" && Lower(Clean(fields[6])) == "block"
    requires ValidatedIp(fields[18]).Some? && ValidatedIp(fields[19]).Some?
    ensures ParseFields(fields).ParsedOk?
  {
    hide Clean, Lower, ValidatedIp, ShowNat, ParseProtocol;
    TcpPortsParse(fields, source, destination);
  }

  lemma TcpBlockFields(from: string, to: string, source: nat, destination: nat)
    ensures var fields := TcpBlock(from, to, source, destination);
            && |fields| == 22 && fields[20] == ShowNat(source) && fields[21] == ShowNat(destination) && fields[18] == from && fields[19] == to
            && Clean(fields[8]) == "4" && Lower(Clean(fields[16])) == "tcp" && Lower(Clean(fields[6])) == "block"
            && Clean(fields[4]) == "em0" && Lower(Clean(fields[7])) == "in"
  {
    hide Clean, Lower, ShowNat;
    WordsFixed();
  }

  /** Between any two addresses and ports it parses and is accepted. */
  lemma TcpBlockIsAccepted(from: string, to: string, source: nat, destination: nat, o: Options)
    requires IsIPv4(from) && IsClean(from) && IsIPv4(to) && IsClean(to) && source <= MAX_PORT && destination <= MAX_PORT
    ensures var fields := TcpBlock(from, to, source, destination);
            && ParseFields(fields).ParsedOk?
            && Validate(Normalize(ParseFields(fields).parsed, o)) == Accepted(Normalize(ParseFields(fields).parsed, o))
  {
    hide Clean, Lower, IsIPv4, ShowNat, Validate, Normalize, IsClean, ParseFields, TcpBlock;
    var fields := TcpBlock(from, to, source, destination);
    TcpBlockFields(from, to, source, destination);
    CleanFixed(from);
    CleanFixed(to);
    TcpBlockParses(fields, source, destination);
    AcceptedExactlyWhen(fields, o);
  }

  lemma TcpPortsParse(fields: seq<string>, source: nat, destination: nat)
    requires |fields| == 22 && fields[20] == ShowNat(source) && fields[21] == ShowNat(destination)
    requires source <= MAX_PORT && destination <= MAX_PORT
    ensures ParseProtocol(fields, Block, "tcp").ParsedOk?
  {
    hide Clean, Lower, Upper, Bounded, ShowNat, BasicFields;
    NumberReadsBack(source, MAX_PORT);
    NumberReadsBack(destination, MAX_PORT);
  }

  lemma TypesDiffer()
    ensures "firewall_block" != "firewall_allow" && "block" != "pass"
  {
    assert "firewall_block"[9] != "firewall_allow"[9];
    assert "block"[0] != "pass"[0];
  }
}
