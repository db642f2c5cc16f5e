/** Which lines parse, what each field of the event holds, and which events the validator takes, each said outright. */
module PfsenseExactness {
  import opened Common
  import opened Text
  import opened PfsenseFilterlog
  import A = PfsenseAgreement

  // ---------- addresses and numbers ----------

  /** Four numbers up to 255, written in decimal without leading zeros. */
  function Quad(a: nat, b: nat, c: nat, d: nat): string {
    ShowNat(a) + "." + (ShowNat(b) + "." + (ShowNat(c) + "." + ShowNat(d)))
  }

  ghost predicate IsQuad(s: string) {
    exists a: nat, b: nat, c: nat, d: nat :: a <= 255 && b <= 255 && c <= 255 && d <= 255 && s == Quad(a, b, c, d)
  }

  lemma SingleDigit(c: char)
    requires IsDigit(c)
    ensures ShowNat(DigitValue(c)) == [c]
  {
    assert DigitChar(DigitValue(c)) == c;
  }

  /** Decimal text without leading zeros is what its number is written as. */
  lemma {:induction false} ReadsAsWritten(s: string)
    requires IsDecimal(s) && (|s| > 1 ==> s[0] != '0')
    ensures ReadNat(s).Some? && ShowNat(ReadNat(s).value) == s && (s[0] != '0' ==> ReadNat(s).value > 0)
    decreases |s|
  {
    var n := |s| - 1;
    SingleDigit(s[n]);
    if n > 0 {
      ReadsAsWritten(s[..n]);
      assert s == s[..n] + [s[n]];
      var high, low := ReadNat(s[..n]).value, DigitValue(s[n]);
      assert ReadNat(s) == Some(10 * high + low);
      assert high > 0 && (10 * high + low) / 10 == high && (10 * high + low) % 10 == low;
      assert DigitChar(low) == s[n];
    }
  }

  lemma {:induction false} WrittenWithoutZeros(n: nat)
    ensures IsDecimal(ShowNat(n)) && (|ShowNat(n)| > 1 ==> ShowNat(n)[0] != '0') && (n > 0 ==> ShowNat(n)[0] != '0')
  {
    if n >= 10 {
      WrittenWithoutZeros(n / 10);
    }
  }

  lemma OctetRead(s: string) returns (n: nat)
    requires IsOctet(s)
    ensures n <= 255 && s == ShowNat(n)
  {
    ReadsAsWritten(s);
    n := ReadNat(s).value;
  }

  lemma OctetWritten(n: nat)
    requires n <= 255
    ensures IsOctet(ShowNat(n))
  {
    WrittenWithoutZeros(n);
    ReadShowNat(n);
    AtMostThree(n);
  }

  lemma AtMostThree(n: nat)
    requires n < 1000
    ensures |ShowNat(n)| <= 3
  {
    if n >= 10 {
      assert |ShowNat(n)| == |ShowNat(n / 10)| + 1;
      if n >= 100 {
        assert |ShowNat(n / 10)| == |ShowNat(n / 100)| + 1;
      }
    }
  }

  function JoinDots(parts: seq<string>): string
    requires parts != []
  {
    if |parts| == 1 then parts[0] else parts[0] + "." + JoinDots(parts[1..])
  }

  lemma {:induction false} JoinSplit(s: string)
    ensures JoinDots(SplitDots(s)) == s
    decreases |s|
  {
    if s != "" {
      JoinSplit(s[1..]);
      var rest := SplitDots(s[1..]);
      assert s == [s[0]] + s[1..];
      if s[0] == '.' {
        assert ([""] + rest)[1..] == rest;
      } else {
        var parts := [[s[0]] + rest[0]] + rest[1..];
        assert parts[1..] == rest[1..];
        assert |parts| > 1 ==> [s[0]] + rest[0] + "." + JoinDots(rest[1..]) == [s[0]] + (rest[0] + "." + JoinDots(rest[1..]));
      }
    }
  }

  lemma JoinFour(parts: seq<string>)
    requires |parts| == 4
    ensures JoinDots(parts) == parts[0] + "." + (parts[1] + "." + (parts[2] + "." + parts[3]))
  {
    assert parts[1..][1..] == parts[2..] && parts[2..][1..] == parts[3..];
    assert JoinDots(parts[3..]) == parts[3];
    assert JoinDots(parts[2..]) == parts[2] + "." + parts[3];
    assert JoinDots(parts[1..]) == parts[1] + "." + JoinDots(parts[2..]);
  }

  /** An address is exactly four such numbers joined by dots. */
  lemma AddressExactly(s: string)
    ensures IsIPv4(s) <==> IsQuad(s)
  {
    hide SplitDots, IsOctet, ShowNat, JoinDots;
    if IsIPv4(s) {
      var parts := SplitDots(s);
      JoinSplit(s);
      JoinFour(parts);
      var a := OctetRead(parts[0]);
      var b := OctetRead(parts[1]);
      var c := OctetRead(parts[2]);
      var d := OctetRead(parts[3]);
      assert s == Quad(a, b, c, d);
    }
    if IsQuad(s) {
      var a: nat, b: nat, c: nat, d: nat :| a <= 255 && b <= 255 && c <= 255 && d <= 255 && s == Quad(a, b, c, d);
      OctetWritten(a);
      OctetWritten(b);
      OctetWritten(c);
      OctetWritten(d);
      A.DottedQuad(ShowNat(a), ShowNat(b), ShowNat(c), ShowNat(d));
    }
  }

  function WithoutUnderscores(s: string): string {
    if s == "" then "" else WithoutUnderscores(s[..|s| - 1]) + if s[|s| - 1] == '_' then "" else [s[|s| - 1]]
  }

  /** Digits with single underscores between them. */
  predicate DigitGroups(s: string) {
    && s != "" && IsDigit(s[0]) && IsDigit(s[|s| - 1])
    && (forall i :: 0 <= i < |s| ==> IsDigit(s[i]) || s[i] == '_')
    && forall i, j :: 0 <= i < |s| && 0 <= j < |s| && j == i + 1 ==> s[i] != '_' || s[j] != '_'
  }

  lemma {:induction false} DigitsExactly(s: string)
    ensures ReadDigits(s).Some? <==> DigitGroups(s)
    ensures ReadDigits(s).Some? ==> ReadDigits(s) == ReadNat(WithoutUnderscores(s))
    decreases |s|
  {
    hide ReadDigits, ReadNat, DigitGroups, WithoutUnderscores;
    if |s| > 1 && IsDigit(s[|s| - 1]) {
      var t := if s[|s| - 2] == '_' then s[..|s| - 2] else s[..|s| - 1];
      DigitsExactly(t);
      GroupsStep(s, t);
      UnderscoresStep(s, t);
      ReadDigitsStep(s, t);
      if DigitGroups(t) {
        NotAllUnderscores(t);
        ReadNatStep(WithoutUnderscores(t), s[|s| - 1]);
      }
    } else {
      FewDigits(s);
    }
  }

  lemma FewDigits(s: string)
    requires |s| <= 1 || !IsDigit(s[|s| - 1])
    ensures ReadDigits(s).Some? <==> DigitGroups(s)
    ensures ReadDigits(s).Some? ==> ReadDigits(s) == ReadNat(WithoutUnderscores(s))
  {
    if |s| == 1 && IsDigit(s[0]) {
      assert WithoutUnderscores(s[..0]) == "";
      assert WithoutUnderscores(s) == [s[0]];
    }
  }

  lemma ReadDigitsStep(s: string, t: string)
    requires |s| > 1 && IsDigit(s[|s| - 1]) && t == if s[|s| - 2] == '_' then s[..|s| - 2] else s[..|s| - 1]
    ensures ReadDigits(s) == if ReadDigits(t).None? then None else Some(10 * ReadDigits(t).value + DigitValue(s[|s| - 1]))
  {
  }

  lemma ReadNatStep(s: string, c: char)
    requires s != "" && IsDigit(c)
    ensures ReadNat(s + [c]) == if ReadNat(s).None? then None else Some(10 * ReadNat(s).value + DigitValue(c))
  {
    assert (s + [c])[..|s|] == s;
  }

  lemma UnderscoresStep(s: string, t: string)
    requires |s| > 1 && IsDigit(s[|s| - 1]) && t == if s[|s| - 2] == '_' then s[..|s| - 2] else s[..|s| - 1]
    ensures WithoutUnderscores(s) == WithoutUnderscores(t) + [s[|s| - 1]]
  {
    var n := |s| - 1;
    if s[n - 1] == '_' {
      assert s[..n][..n - 1] == t;
    }
  }

  lemma NotAllUnderscores(s: string)
    requires DigitGroups(s)
    ensures WithoutUnderscores(s) != ""
  {
  }

  lemma GroupsStep(s: string, t: string)
    requires |s| > 1 && IsDigit(s[|s| - 1]) && t == if s[|s| - 2] == '_' then s[..|s| - 2] else s[..|s| - 1]
    ensures DigitGroups(s) <==> DigitGroups(t)
  {
    var n := |s| - 1;
    if DigitGroups(s) {
      assert s[n - 1] == '_' ==> n >= 2 && s[n - 2] != '_';
    }
    if DigitGroups(t) {
      forall i | 0 <= i < |s|
        ensures IsDigit(s[i]) || s[i] == '_'
      {
        assert i < |t| ==> t[i] == s[i];
      }
      forall i, j | 0 <= i < |s| && 0 <= j < |s| && j == i + 1
        ensures s[i] != '_' || s[j] != '_'
      {
        assert j < |t| ==> t[i] == s[i] && t[j] == s[j];
        assert t[|t| - 1] == s[|t| - 1];
      }
    }
  }

  /** int() takes an optional sign and such groups, and reads them with the underscores dropped. */
  lemma IntegersExactly(s: string)
    ensures var signed := s != "" && (s[0] == '-' || s[0] == '+');
            var digits := if signed then s[1..] else s;
            && (ReadPythonInt(s).Some? <==> DigitGroups(digits))
            && (ReadPythonInt(s).Some? ==>
                  ReadNat(WithoutUnderscores(digits)) == Some(if signed && s[0] == '-' then -ReadPythonInt(s).value else ReadPythonInt(s).value))
  {
    var digits := if s != "" && (s[0] == '-' || s[0] == '+') then s[1..] else s;
    DigitsExactly(digits);
  }

  /** Cleaning first drops the unsafe characters and no other. */
  lemma {:induction false} UnsafeDropped(a: string, b: string)
    ensures WithoutUnsafe(a + b) == WithoutUnsafe(a) + WithoutUnsafe(b)
    decreases |a|
  {
    if a == "" {
      assert a + b == b;
    } else {
      assert (a + b)[1..] == a[1..] + b;
      UnsafeDropped(a[1..], b);
    }
  }

  lemma UnsafeExactly(c: char)
    ensures var n := c as int;
            WithoutUnsafe([c]) == if n <= 8 || n == 11 || n == 12 || 14 <= n <= 31 || n == 127 then "" else [c]
  {
    assert [c][1..] == "";
  }

  /** The twenty-six letters are folded to the letter of the same place, and nothing else is folded. */
  lemma LettersFold(k: nat, c: char)
    ensures k < 26 ==> LowerChar((65 + k) as char) == (97 + k) as char && UpperChar((97 + k) as char) == (65 + k) as char
    ensures !(65 <= c as int < 91) ==> LowerChar(c) == c
    ensures !(97 <= c as int < 123) ==> UpperChar(c) == c
  {
  }

  // ---------- vocabularies ----------

  lemma Vocabularies(s: string)
    ensures IsProtocol(s) <==>
            s in {"ah", "carp", "esp", "gre", "icmp", "igmp", "ipencap", "ospf", "pfsync", "pim", "sctp", "tcp", "udp"}
    ensures IsIcmpWord(s) <==>
            s in {"maskreply", "needfrag", "parameterprob", "paramprob", "redirect", "reply", "request",
                  "timexceed", "tstamp", "tstampreply", "unreach", "unreachport", "unreachproto"}
    ensures HasPorts(s) <==> s in {"tcp", "udp"}
    ensures IsDirection(s) <==> s in {"in", "out"}
    ensures ActionOf(s).Some? <==> s in {"block", "pass"}
  {
  }

  // ---------- which lines parse ----------

  /** The field reads as an integer from 0 up to `max`. */
  ghost predicate NumberField(fields: seq<string>, i: nat, max: int) {
    var n := ReadPythonInt(Clean(At(fields, i)));
    n.Some? && 0 <= n.value <= max
  }

  ghost predicate AddressField(fields: seq<string>, i: nat) {
    IsQuad(Clean(At(fields, i)))
  }

  ghost predicate DigitsField(fields: seq<string>, i: nat) {
    var text := Clean(At(fields, i));
    text != "" && forall k :: 0 <= k < |text| ==> '0' <= text[k] <= '9'
  }

  ghost predicate DetailsFit(word: string, fields: seq<string>) {
    && (word in {"request", "reply", "tstamp", "tstampreply"} ==> DigitsField(fields, 21) && DigitsField(fields, 22))
    && (word == "tstampreply" ==> DigitsField(fields, 23) && DigitsField(fields, 24) && DigitsField(fields, 25))
    && (word in {"unreachproto", "unreachport", "needfrag"} ==> AddressField(fields, 21) && DigitsField(fields, 22))
    && (word == "unreachport" ==> NumberField(fields, 23, 65535))
    && (word in {"maskreply", "parameterprob", "paramprob", "redirect", "timexceed", "unreach"} ==> Clean(At(fields, 21)) != "")
  }

  lemma FieldForms(fields: seq<string>, i: nat)
    ensures ValidatedIp(At(fields, i)).Some? <==> AddressField(fields, i)
    ensures ValidatedIp(At(fields, i)).Some? ==> ValidatedIp(At(fields, i)).value == Clean(At(fields, i))
    ensures DecimalAt(fields, i) <==> DigitsField(fields, i)
    ensures Bounded(At(fields, i), MAX_PORT).Some? <==> NumberField(fields, i, 65535)
    ensures Bounded(At(fields, i), MAX_ICMP).Some? <==> NumberField(fields, i, 255)
  {
    hide Clean, IsIPv4, IsQuad, At, ReadPythonInt;
    AddressExactly(Clean(At(fields, i)));
  }

  lemma DetailsExactly(word: string, fields: seq<string>)
    requires IsIcmpWord(word)
    ensures IcmpDetails(word, fields) <==> DetailsFit(word, fields)
  {
    hide Clean, ValidatedIp, DecimalAt, Bounded, At, NumberField, AddressField, DigitsField;
    FieldForms(fields, 21);
    FieldForms(fields, 22);
    FieldForms(fields, 23);
    FieldForms(fields, 24);
    FieldForms(fields, 25);
  }

  ghost predicate IcmpWordField(fields: seq<string>) {
    Lower(Clean(At(fields, 20))) in {"maskreply", "needfrag", "parameterprob", "paramprob", "redirect", "reply", "request",
                                     "timexceed", "tstamp", "tstampreply", "unreach", "unreachport", "unreachproto"}
  }

  /** A type from 0 to 255 with no code or one from 0 to 255, or one of thirteen words with the details it calls for. */
  lemma IcmpParsesExactlyWhen(fields: seq<string>)
    ensures var word, coded := Lower(Clean(At(fields, 20))), Clean(At(fields, 21)) != "";
            var kind, code := ReadPythonInt(Clean(word)), ReadPythonInt(Clean(At(fields, 21)));
            if kind.Some? && 0 <= kind.value <= 255 then
              ParseIcmp(fields) == if !coded then IcmpOk(Number(kind.value), None)
                                   else if code.Some? && 0 <= code.value <= 255 then IcmpOk(Number(kind.value), code) else IcmpBad(InvalidIcmpCode)
            else
              ParseIcmp(fields) == if !IcmpWordField(fields) then IcmpBad(InvalidIcmpType)
                                   else if !DetailsFit(word, fields) then IcmpBad(InvalidIcmpDetails) else IcmpOk(Text(word), None)
  {
    hide Clean, Lower, At, IcmpDetails, DetailsFit, IsIcmpWord;
    var word := Lower(Clean(At(fields, 20)));
    A.CleanTwice(At(fields, 21));
    Vocabularies(word);
    if IsIcmpWord(word) {
      DetailsExactly(word, fields);
    }
    BlankHasNoNumber();
  }

  lemma BlankHasNoNumber()
    ensures ReadPythonInt("") == None
  {
  }

  ghost predicate LineFits(fields: seq<string>) {
    && |fields| >= 20 && Clean(fields[8]) == "4"
    && Lower(Clean(fields[16])) in {"ah", "carp", "esp", "gre", "icmp", "igmp", "ipencap", "ospf", "pfsync", "pim", "sctp", "tcp", "udp"}
    && Lower(Clean(fields[6])) in {"block", "pass"}
    && AddressField(fields, 18) && AddressField(fields, 19)
    && (Lower(Clean(fields[16])) in {"tcp", "udp"} ==> NumberField(fields, 20, 65535) && NumberField(fields, 21, 65535))
    && (Lower(Clean(fields[16])) == "icmp" ==> ParseIcmp(fields).IcmpOk?)
  }

  lemma LineParsesExactlyWhen(fields: seq<string>)
    ensures ParseFields(fields).ParsedOk? <==> LineFits(fields)
  {
    hide Clean, Lower, IsProtocol, HasPorts, ActionOf, AddressField, NumberField, ValidatedIp, Bounded, ParseIcmp, Upper;
    if |fields| >= 20 {
      Vocabularies(Lower(Clean(fields[16])));
      Vocabularies(Lower(Clean(fields[6])));
      FieldForms(fields, 18);
      FieldForms(fields, 19);
      FieldForms(fields, 20);
      FieldForms(fields, 21);
    }
  }

  /** The first thing wrong with a line names its failure. */
  lemma LineRefusedInOrder(fields: seq<string>)
    ensures ParseFields(fields) == Failed(NotEnoughFields) <==> |fields| < 20
    ensures |fields| >= 20 ==>
              var protocol, parse := Lower(Clean(fields[16])), ParseFields(fields);
              var known := protocol in {"ah", "carp", "esp", "gre", "icmp", "igmp", "ipencap", "ospf", "pfsync", "pim", "sctp", "tcp", "udp"};
              var acts := Lower(Clean(fields[6])) in {"block", "pass"};
              var addressed := AddressField(fields, 18) && AddressField(fields, 19);
              && (parse == Failed(UnsupportedIpVersion) <==> Clean(fields[8]) != "4")
              && (parse == Failed(UnsupportedProtocol) <==> Clean(fields[8]) == "4" && !known)
              && (parse == Failed(UnsupportedAction) <==> Clean(fields[8]) == "4" && known && !acts)
              && (parse == Failed(InvalidIpAddress) <==> Clean(fields[8]) == "4" && known && acts && !addressed)
              && (parse == Failed(InvalidPort) <==>
                    && Clean(fields[8]) == "4" && known && acts && addressed && protocol in {"tcp", "udp"}
                    && !(NumberField(fields, 20, 65535) && NumberField(fields, 21, 65535)))
  {
    hide Clean, Lower, IsProtocol, HasPorts, ActionOf, AddressField, NumberField, ValidatedIp, Bounded, Upper, IcmpDetails, IsIcmpWord;
    if |fields| >= 20 {
      Vocabularies(Lower(Clean(fields[16])));
      Vocabularies(Lower(Clean(fields[6])));
      FieldForms(fields, 18);
      FieldForms(fields, 19);
      FieldForms(fields, 20);
      FieldForms(fields, 21);
    }
  }

  ghost predicate HoldsText(held: Option<string>, text: string) {
    held == if text == "" then None else Some(text)
  }

  /** Every field of what is parsed, by the place it was logged in. */
  lemma ParsedHolds(fields: seq<string>)
    ensures ParseFields(fields).ParsedOk? ==>
              && |fields| >= 20
              && var p, protocol := ParseFields(fields).parsed, Lower(Clean(fields[16]));
              && HoldsText(p.ruleId, Clean(fields[0])) && HoldsText(p.tracker, Clean(fields[3])) && HoldsText(p.interface, Clean(fields[4]))
              && (p.action == Block <==> Lower(Clean(fields[6])) == "block")
              && HoldsText(p.direction, Lower(Clean(fields[7])))
              && p.ipVersion == "4" && p.protocol == protocol
              && p.sourceIp == Clean(fields[18]) && p.destinationIp == Clean(fields[19])
              && (p.ports.Some? <==> protocol in {"tcp", "udp"})
              && (p.ports.Some? ==> Some(p.ports.value.0) == ReadPythonInt(Clean(At(fields, 20)))
                                    && Some(p.ports.value.1) == ReadPythonInt(Clean(At(fields, 21))))
              && HoldsText(p.tcpFlags, if protocol == "tcp" then Upper(Clean(At(fields, 23))) else "")
              && (protocol == "icmp" ==> ParseIcmp(fields) == IcmpOk(p.icmpType, p.icmpCode))
              && (protocol != "icmp" ==> p.icmpType == Null && p.icmpCode == None)
  {
    hide Clean, Lower, IsProtocol, IsIPv4, Upper, ParseIcmp, ReadPythonInt;
    if |fields| >= 20 {
      Vocabularies(Lower(Clean(fields[16])));
      A.TypesDiffer();
    }
  }

  // ---------- what the event holds ----------

  /** The log texts and the sender, each under its key exactly when there is one; the summary is the first 160 characters of the log. */
  ghost predicate LogTexts(payload: Payload, o: Options) {
    var log := Clean(o.summary);
    && A.Entry(payload, SenderIp) == (if o.senderIp == "" then None else Some(Text(Clean(o.senderIp))))
    && A.Entry(payload, RawLog) == (if log == "" then None else Some(Text(log)))
    && A.Entry(payload, RawSyslog) == (if Clean(o.rawMessage) == "" then None else Some(Text(Clean(o.rawMessage))))
    && A.Entry(payload, SanitizedSummary) == (if log == "" then None else Some(Text(if |log| <= 160 then log else log[..160])))
  }

  ghost predicate TimeNotes(payload: Payload, o: Options) {
    && A.Entry(payload, TimestampStatus) == (if o.status == "" then None else Some(Text(o.status)))
    && A.Entry(payload, TimestampReason) == (if o.reason == "" then None else Some(Text(o.reason)))
  }

  lemma LogEntries(payload: Payload, o: Options)
    requires TimeNotes(payload, o)
    requires SenderIp !in payload && RawLog !in payload && RawSyslog !in payload && SanitizedSummary !in payload
    ensures LogTexts(Logged(payload, o), o) && TimeNotes(Logged(payload, o), o)
  {
    hide Clean;
  }

  lemma TimesEntered(p: Parsed, o: Options)
    ensures var timed := Timed(Required(p, o), o);
            && TimeNotes(timed, o)
            && SenderIp !in timed && RawLog !in timed && RawSyslog !in timed && SanitizedSummary !in timed
  {
    hide OptionalText, ActionName, EventType;
  }

  /** These, and the notes on the timestamp, of every event. */
  lemma LogTextsHold(p: Parsed, o: Options)
    ensures LogTexts(PayloadOf(p, o), o) && TimeNotes(PayloadOf(p, o), o)
  {
    hide Clean, PutOptional, Lookup, Logged, Required, Timed, LogTexts;
    var timed := Timed(Required(p, o), o);
    TimesEntered(p, o);
    var filled := PutOptional(timed, p, OPTIONAL_KEYS);
    forall key | A.IsLogKey(key)
      ensures A.Entry(filled, key) == A.Entry(timed, key)
    {
      A.OptionalKeys(timed, p, key);
    }
    assert A.Entry(filled, SenderIp) == None == A.Entry(filled, RawLog);
    assert A.Entry(filled, RawSyslog) == None == A.Entry(filled, SanitizedSummary);
    LogEntries(filled, o);
  }

  ghost predicate HoldsValue(payload: Payload, key: Key, value: Option<Value>) {
    A.Entry(payload, key) == value
  }

  ghost function TextOf(text: string): Option<Value> {
    if text == "" then None else Some(Text(text))
  }

  ghost predicate OptionalFields(fields: seq<string>, payload: Payload)
    requires |fields| >= 20
  {
    var protocol := Lower(Clean(fields[16]));
    && HoldsValue(payload, RuleId, TextOf(Clean(fields[0])))
    && HoldsValue(payload, Tracker, TextOf(Clean(fields[3])))
    && HoldsValue(payload, TcpFlags, TextOf(if protocol == "tcp" then Upper(Clean(At(fields, 23))) else ""))
    && (protocol == "icmp" ==> ParseIcmp(fields).IcmpOk? && IcmpFields(payload, ParseIcmp(fields).kind, ParseIcmp(fields).code))
    && (protocol != "icmp" ==> HoldsValue(payload, IcmpType, None) && HoldsValue(payload, IcmpCode, None))
  }

  ghost predicate IcmpFields(payload: Payload, kind: Value, code: Option<int>) {
    && HoldsValue(payload, IcmpType, Some(kind))
    && HoldsValue(payload, IcmpCode, if code.Some? then Some(Number(code.value)) else None)
  }

  /** The optional keys of the event of a line. */
  lemma OptionalFieldsHold(fields: seq<string>, o: Options)
    ensures ParseFields(fields).ParsedOk? ==> |fields| >= 20 && OptionalFields(fields, PayloadOf(ParseFields(fields).parsed, o))
  {
    hide Clean, Lower, Upper, ParseIcmp, ParseFields, PayloadOf, At, ReadPythonInt, A.Entry;
    if ParseFields(fields).ParsedOk? {
      var p := ParseFields(fields).parsed;
      ParsedHolds(fields);
      var flags := if Lower(Clean(fields[16])) == "tcp" then Upper(Clean(At(fields, 23))) else "";
      assert HoldsText(p.tcpFlags, flags);
      hide HoldsText;
      IcmpTypeStored(fields);
      TextEntries(p, o, Clean(fields[0]), Clean(fields[3]), flags);
      OptionalEntry(p, o, IcmpType);
      OptionalEntry(p, o, IcmpCode);
    }
  }

  lemma OptionalEntry(p: Parsed, o: Options, key: Key)
    requires key in OPTIONAL_KEYS
    ensures A.Entry(PayloadOf(p, o), key) == if Lookup(p, key) != Null && Lookup(p, key) != Text("") then Some(Lookup(p, key)) else None
  {
    hide PayloadOf, Lookup;
    OptionalIsNoLog(key);
    A.PayloadHolds(p, o, key);
  }

  lemma OptionalIsNoLog(key: Key)
    requires key in OPTIONAL_KEYS
    ensures !A.IsLogKey(key)
  {
  }

  lemma TextEntries(p: Parsed, o: Options, rule: string, tracker: string, flags: string)
    requires HoldsText(p.ruleId, rule) && HoldsText(p.tracker, tracker) && HoldsText(p.tcpFlags, flags)
    ensures var payload := PayloadOf(p, o);
            HoldsValue(payload, RuleId, TextOf(rule)) && HoldsValue(payload, Tracker, TextOf(tracker)) && HoldsValue(payload, TcpFlags, TextOf(flags))
  {
    hide PayloadOf, A.Entry;
    OptionalEntry(p, o, RuleId);
    OptionalEntry(p, o, Tracker);
    OptionalEntry(p, o, TcpFlags);
  }

  lemma IcmpTypeStored(fields: seq<string>)
    ensures ParseIcmp(fields).IcmpOk? ==> ParseIcmp(fields).kind != Null && ParseIcmp(fields).kind != Text("")
  {
    hide Clean, Lower, At, IcmpDetails;
  }

  lemma RequiredEntries(p: Parsed, o: Options)
    ensures A.Entry(PayloadOf(p, o), Utf8Replaced) == Some(Flag(o.utf8Replaced))
    ensures A.Entry(PayloadOf(p, o), EventTypeCandidate) == Some(Text(EventType(p.action)))
    ensures A.Entry(PayloadOf(p, o), InterfaceKey) == Some(OptionalText(p.interface))
    ensures A.Entry(PayloadOf(p, o), DirectionKey) == Some(OptionalText(p.direction))
    ensures A.Entry(PayloadOf(p, o), ActionKey) == Some(Text(ActionName(p.action)))
  {
    hide PayloadOf, EventType, OptionalText, ActionName, A.Entry;
    RequiredEntry(p, o, Utf8Replaced);
    RequiredEntry(p, o, EventTypeCandidate);
    RequiredEntry(p, o, InterfaceKey);
    RequiredEntry(p, o, DirectionKey);
    RequiredEntry(p, o, ActionKey);
  }

  lemma RequiredEntry(p: Parsed, o: Options, key: Key)
    requires !A.IsLogKey(key) && key !in OPTIONAL_KEYS
    ensures key in Required(p, o) && A.Entry(PayloadOf(p, o), key) == Some(Required(p, o)[key])
  {
    hide PayloadOf, Required, Lookup;
    A.RequiredHas(p, o, key);
    A.PayloadHolds(p, o, key);
  }

  /** What every event says about itself. */
  lemma EventHolds(p: Parsed, o: Options)
    ensures var event := Normalize(p, o);
            && event.severity == Text(if p.action == Block then "medium" else "low")
            && event.eventType == Text(if p.action == Block then "firewall_block" else "firewall_allow")
            && event.source == Text("pfsense") && event.sourceType == Text("firewall") && event.appName == Text("pfsense_filterlog")
            && event.timestamp == o.timestamp
            && event.environment == Text(if CleanValue(o.environment) == "" then "prod" else CleanValue(o.environment))
            && event.message == Text("pfSense " + Upper(p.protocol) + " traffic " + (if p.action == Block then "blocked" else "allowed")
                                     + " from " + p.sourceIp + " to " + p.destinationIp
                                     + if p.ports.None? then "" else ":" + ShowInt(p.ports.value.1))
            && event.rawPayload == Dict(PayloadOf(p, o))
            && A.Entry(PayloadOf(p, o), Utf8Replaced) == Some(Flag(o.utf8Replaced))
            && A.Entry(PayloadOf(p, o), EventTypeCandidate) == Some(event.eventType)
            && A.Entry(PayloadOf(p, o), InterfaceKey) == Some(if p.interface.Some? then Text(p.interface.value) else Null)
            && A.Entry(PayloadOf(p, o), DirectionKey) == Some(if p.direction.Some? then Text(p.direction.value) else Null)
            && A.Entry(PayloadOf(p, o), ActionKey) == Some(Text(if p.action == Block then "block" else "pass"))
  {
    hide CleanValue, Upper, ShowInt, PayloadOf, A.Entry;
    RequiredEntries(p, o);
  }

  // ---------- which events are valid ----------

  ghost predicate ReadsUpTo(v: Value, max: int) {
    var n := ReadPythonInt(CleanValue(v));
    n.Some? && 0 <= n.value <= max
  }

  ghost predicate Filled(v: Value) {
    v != Null && (v.Text? ==> !AllSpace(v.text))
  }

  /** Absent, None, a number, a boolean, or text that is not blank. */
  ghost predicate Identifies(payload: Payload, key: Key) {
    key in payload && payload[key].Text? ==> CleanValue(payload[key]) != ""
  }

  ghost predicate SaysWho(payload: Payload, eventType: string) {
    && ActionKey in payload && InterfaceKey in payload && DirectionKey in payload && IpVersionKey in payload && ProtocolKey in payload
    && SourceIpKey in payload && DestinationIpKey in payload
    && (|| (Lower(CleanValue(payload[ActionKey])) == "block" && eventType == "firewall_block")
        || (Lower(CleanValue(payload[ActionKey])) == "pass" && eventType == "firewall_allow"))
    && CleanValue(payload[InterfaceKey]) != ""
    && Lower(CleanValue(payload[DirectionKey])) in {"", "in", "out"}
    && CleanValue(payload[IpVersionKey]) == "4"
    && Lower(CleanValue(payload[ProtocolKey])) in
       {"ah", "carp", "esp", "gre", "icmp", "igmp", "ipencap", "ospf", "pfsync", "pim", "sctp", "tcp", "udp"}
    && IsQuad(CleanValue(payload[SourceIpKey])) && IsQuad(CleanValue(payload[DestinationIpKey]))
  }

  ghost predicate SaysWhat(payload: Payload, protocol: string) {
    && (SourcePort in payload && payload[SourcePort] != Null ==> ReadsUpTo(payload[SourcePort], 65535))
    && (DestinationPort in payload && payload[DestinationPort] != Null ==> ReadsUpTo(payload[DestinationPort], 65535))
    && (protocol in {"tcp", "udp"} ==>
          SourcePort in payload && payload[SourcePort] != Null && DestinationPort in payload && payload[DestinationPort] != Null)
    && (protocol == "icmp" ==> SourcePort !in payload && DestinationPort !in payload)
    && (IcmpType in payload ==>
          || ReadsUpTo(payload[IcmpType], 255)
          || Lower(CleanValue(payload[IcmpType])) in
             {"maskreply", "needfrag", "parameterprob", "paramprob", "redirect", "reply", "request",
              "timexceed", "tstamp", "tstampreply", "unreach", "unreachport", "unreachproto"})
    && (IcmpCode in payload ==> ReadsUpTo(payload[IcmpCode], 255))
    && Identifies(payload, RuleId) && Identifies(payload, Tracker)
  }

  lemma IdentityExactly(payload: Payload, eventType: string)
    ensures HasKeys(payload, REQUIRED_KEYS) && IdentityOk(payload, eventType) <==> SaysWho(payload, eventType)
  {
    hide Clean, Lower, Show, IsIPv4, IsQuad, ActionOf, IsProtocol, IsDirection, EventType;
    RequiredExactly(payload);
    if HasKeys(payload, REQUIRED_KEYS) {
      hide HasKeys;
      var action := Lower(CleanValue(payload[ActionKey]));
      ActionExactly(action, eventType);
      Vocabularies(Lower(CleanValue(payload[ProtocolKey])));
      Vocabularies(Lower(CleanValue(payload[DirectionKey])));
      AddressExactly(CleanValue(payload[SourceIpKey]));
      AddressExactly(CleanValue(payload[DestinationIpKey]));
      NullIsBlank();
    }
  }

  lemma NullIsBlank()
    ensures Lower(CleanValue(Null)) == ""
  {
  }

  lemma ActionExactly(action: string, eventType: string)
    ensures (var a := ActionOf(action); a.Some? && EventType(a.value) == eventType) <==>
            (action == "block" && eventType == "firewall_block") || (action == "pass" && eventType == "firewall_allow")
  {
    A.TypesDiffer();
  }

  lemma RequiredExactly(payload: Payload)
    ensures HasKeys(payload, REQUIRED_KEYS) <==>
            && ActionKey in payload && InterfaceKey in payload && DirectionKey in payload && IpVersionKey in payload && ProtocolKey in payload
            && SourceIpKey in payload && DestinationIpKey in payload
  {
    var keys := REQUIRED_KEYS;
    if HasKeys(payload, keys) {
      assert keys[0] in payload && keys[1] in payload && keys[2] in payload && keys[3] in payload && keys[4] in payload;
      assert keys[5] in payload && keys[6] in payload;
    }
  }

  lemma PayloadDetailsExactly(payload: Payload, protocol: string)
    ensures DetailsOk(payload, protocol) <==> SaysWhat(payload, protocol)
  {
    hide Clean, Lower, ReadPythonInt, ShowInt, HasPorts, IsIcmpWord;
    Vocabularies(protocol);
    if IcmpType in payload {
      Vocabularies(Lower(CleanValue(payload[IcmpType])));
    }
  }

  ghost predicate Complete(e: Event) {
    && Filled(e.eventType) && Filled(e.severity) && Filled(e.sourceIp) && Filled(e.source) && Filled(e.sourceType)
    && Filled(e.message) && Filled(e.appName) && Filled(e.environment) && e.rawPayload != Missing
  }

  ghost predicate EventFits(e: Event) {
    && Complete(e)
    && Strip(Show(e.eventType)) in {"firewall_block", "firewall_allow"}
    && Lower(Strip(Show(e.severity))) in {"low", "medium", "high", "critical"}
    && Strip(Show(e.source)) == "pfsense" && Strip(Show(e.sourceType)) == "firewall"
    && IsQuad(CleanValue(e.sourceIp))
    && e.rawPayload.Dict?
    && SaysWho(e.rawPayload.payload, Strip(Show(e.eventType)))
    && SaysWhat(e.rawPayload.payload, Lower(CleanValue(e.rawPayload.payload[ProtocolKey])))
  }

  lemma FilledExactly(v: Value)
    ensures Absent(v) <==> !Filled(v)
  {
    hide IsSpace, Strip;
    if v.Text? { StripsToNothing(v.text); }
  }

  lemma PayloadExactly(payload: Payload, eventType: string)
    ensures PayloadOk(payload, eventType) <==>
            SaysWho(payload, eventType) && SaysWhat(payload, Lower(CleanValue(payload[ProtocolKey])))
  {
    hide HasKeys, IdentityOk, DetailsOk, SaysWhat, CleanValue, Lower;
    IdentityExactly(payload, eventType);
    if ProtocolKey in payload {
      PayloadDetailsExactly(payload, Lower(CleanValue(payload[ProtocolKey])));
    }
  }

  /** The validator takes an event exactly when it fits, and answers it with its texts stripped and its severity folded. */
  lemma ValidExactlyWhen(e: Event)
    ensures Validate(e).Accepted? <==> EventFits(e)
    ensures Validate(e).Accepted? ==>
              var taken := Validate(e).event;
              && taken.eventType == Text(Strip(Show(e.eventType))) && taken.severity == Text(Lower(Strip(Show(e.severity))))
              && taken.sourceIp == Text(CleanValue(e.sourceIp)) && taken.source == Text("pfsense") && taken.sourceType == Text("firewall")
              && taken.timestamp == e.timestamp && taken.rawPayload == e.rawPayload
              && taken.message == Text(Strip(Show(e.message))) && taken.appName == Text(Strip(Show(e.appName)))
              && taken.environment == Text(if CleanValue(e.environment) == "" then "prod" else CleanValue(e.environment))
  {
    hide Clean, Lower, Strip, Show, IsIPv4, IsQuad, PayloadOk, SaysWho, SaysWhat, Absent, Filled;
    AllFilled(e);
    AddressExactly(Clean(Show(e.sourceIp)));
    if e.rawPayload.Dict? {
      PayloadExactly(e.rawPayload.payload, Strip(Show(e.eventType)));
    }
  }

  /** The first thing wrong with an event names its refusal. */
  lemma RefusedInOrder(e: Event)
    ensures var v := Validate(e);
            var typed := Strip(Show(e.eventType)) in {"firewall_block", "firewall_allow"};
            var rated := Lower(Strip(Show(e.severity))) in {"low", "medium", "high", "critical"};
            var sourced := Strip(Show(e.source)) == "pfsense" && Strip(Show(e.sourceType)) == "firewall";
            && (v == Rejected(MissingFields) <==> !Complete(e))
            && (v == Rejected(BadEventType) <==> Complete(e) && !typed)
            && (v == Rejected(BadSeverity) <==> Complete(e) && typed && !rated)
            && (v == Rejected(BadSource) <==> Complete(e) && typed && rated && !sourced)
            && (v == Rejected(BadSourceIp) <==> Complete(e) && typed && rated && sourced && !IsQuad(CleanValue(e.sourceIp)))
  {
    hide Clean, Lower, Strip, Show, IsIPv4, IsQuad, PayloadOk, Absent, Filled;
    AllFilled(e);
    AddressExactly(Clean(Show(e.sourceIp)));
  }

  lemma AllFilled(e: Event)
    ensures HasFields(e) <==> Complete(e)
  {
    hide Absent, Filled;
    FilledExactly(e.eventType);
    FilledExactly(e.severity);
    FilledExactly(e.sourceIp);
    FilledExactly(e.source);
    FilledExactly(e.sourceType);
    FilledExactly(e.message);
    FilledExactly(e.appName);
    FilledExactly(e.environment);
  }
}
