// The HAN-FUN control channel of src/han_client.cpp: a text message is an
// optional "[service]" line, a command line and parameter lines, each
// ended by CR LF; DEV_TABLE replies list devices. Sockets are left out:
// a send returns the datagram, a receive takes it.
module HanClient {
  import opened Wrappers
  import Text

  const CRLF: string := "\r\n"
  const LineDelims: set<char> := {'\r', '\n'}

  /** Message: NULL members are None. */
  datatype Message = Message(service: Option<string>, command: Option<string>, parameters: Option<string>)

  predicate OptCString(s: Option<string>) { s.Some? ==> Text.IsCString(s.value) }

  /** A message `pack` can write: the command is set and all members are C strings. */
  predicate Packable(m: Message) {
    m.command.Some? && Text.IsCString(m.command.value) && OptCString(m.service) && OptCString(m.parameters)
  }

  function ServicePart(service: Option<string>): string {
    if service.Some? then "[" + service.value + "]" + CRLF else ""
  }

  function ParametersPart(parameters: Option<string>): string {
    if parameters.Some? then parameters.value else ""
  }

  /** The bytes `pack` writes. */
  function Packed(m: Message): (r: string)
    requires Packable(m)
    ensures |r| == (if m.service.Some? then |m.service.value| + 4 else 0)
                   + |m.command.value| + 2 + |ParametersPart(m.parameters)| + 2
  {
    ServicePart(m.service) + m.command.value + CRLF + ParametersPart(m.parameters) + CRLF
  }

  /** Copies s into buffer at offset, as strncpy does; nothing else changes. */
  method CopyAt(buffer: array<char>, offset: nat, s: string)
    requires offset + |s| <= buffer.Length
    modifies buffer
    ensures buffer[..offset + |s|] == old(buffer[..offset]) + s
    ensures buffer[offset + |s|..] == old(buffer[offset + |s|..])
  {
    var i := 0;
    while i < |s|
      invariant 0 <= i <= |s|
      invariant buffer[..offset + i] == old(buffer[..offset]) + s[..i]
      invariant buffer[offset + i..] == old(buffer[offset + i..])
    {
      buffer[offset + i] := s[i];
      assert buffer[..offset + i + 1] == buffer[..offset + i] + [s[i]];
      assert buffer[offset + i + 1..] == old(buffer[offset + i + 1..]);
      i := i + 1;
    }
  }

  /** Message::pack: one buffer of exactly the packed size, filled piece by piece. */
  method Pack(m: Message) returns (buffer: array<char>, length: nat)
    requires Packable(m)
    ensures buffer.Length == length
    ensures buffer[..] == Packed(m)
  {
    var servicePart := ServicePart(m.service);
    var commandPart := m.command.value + CRLF;
    var params := ParametersPart(m.parameters);
    var n1 := |servicePart|;
    var n2 := n1 + |commandPart|;
    var n3 := n2 + |params|;
    length := n3 + 2;
    buffer := new char[length](i => '\0');
    assert buffer[..0] == [];
    CopyAt(buffer, 0, servicePart);
    CopyAt(buffer, n1, commandPart);
    CopyAt(buffer, n2, params);
    CopyAt(buffer, n3, CRLF);
    assert buffer[..] == buffer[..length];
  }

  /**
   * The service copy of `unpack`: strlen(line) goes through a uint8_t and
   * that many minus two characters are copied from after the '['. A
   * negative count is undefined behaviour (None).
   */
  function ServiceOf(line: string): (r: Option<string>)
    requires |line| > 0
    ensures Text.ToU8(|line|) >= 2 ==> r == Some(line[1..Text.ToU8(|line|) - 1])
  {
    var len := Text.ToU8(|line|);
    if len < 2 then None else Some(line[1..len - 1])
  }

  /** The command copy: strlen(line) through a uint8_t. */
  function CommandOf(line: string): string {
    line[..Text.ToU8(|line|)]
  }

  /**
   * Message::unpack on the strtok'd lines; None where the source's
   * behaviour is undefined.
   */
  function UnpackLines(lines: seq<string>): (r: Option<Message>)
    requires forall i :: 0 <= i < |lines| ==> |lines[i]| > 0
  {
    if lines == [] then Some(Message(None, None, None))
    else
      var hasService := lines[0][0] == '[';
      var service := if hasService then ServiceOf(lines[0]) else Some("HAN");
      var rest := if hasService then lines[1..] else lines;
      if service.None? then None
      else
        Some(Message(service,
                     if rest == [] then None else Some(CommandOf(rest[0])),
                     if |rest| < 2 then None else Some(Text.Terminated(rest[1..], CRLF))))
  }

  function Unpacked(buffer: string): Option<Message> {
    UnpackLines(Text.Tokens(Text.CPrefix(buffer), LineDelims))
  }

  /** Message::unpack: the strtok walk, then the strcat loop over parameter lines. */
  method Unpack(buffer: string) returns (r: Option<Message>)
    ensures r == Unpacked(buffer)
  {
    var lines := Text.SplitTokens(Text.CPrefix(buffer), LineDelims);
    if lines == [] {
      return Some(Message(None, None, None));
    }
    var service: Option<string>;
    var k := 0;
    if lines[0][0] == '[' {
      service := ServiceOf(lines[0]);
      if service.None? {
        return None;
      }
      k := 1;
    } else {
      service := Some("HAN");
    }
    var command: Option<string> := None;
    if k < |lines| {
      command := Some(CommandOf(lines[k]));
      k := k + 1;
    }
    var parameters: Option<string> := None;
    if k < |lines| {
      var first := k;
      var acc := lines[k] + CRLF;
      k := k + 1;
      while k < |lines|
        invariant first < k <= |lines|
        invariant acc == Text.Terminated(lines[first..k], CRLF)
      {
        SnocSlice(lines, first, k);
        TerminatedSnoc(lines[first..k], lines[k], CRLF);
        acc := acc + lines[k] + CRLF;
        k := k + 1;
      }
      parameters := Some(acc);
      assert lines[first..] == lines[first..k];
    }
    r := Some(Message(service, command, parameters));
  }

  lemma SnocSlice<T>(s: seq<T>, a: nat, b: nat)
    requires a <= b < |s|
    ensures s[a..b + 1] == s[a..b] + [s[b]]
  {
  }

  lemma {:induction false} TerminatedSnoc(pieces: seq<string>, last: string, sep: string)
    ensures Text.Terminated(pieces + [last], sep) == Text.Terminated(pieces, sep) + last + sep
  {
    if pieces != [] {
      assert (pieces + [last])[1..] == pieces[1..] + [last];
      TerminatedSnoc(pieces[1..], last, sep);
    } else {
      assert [last][1..] == [];
    }
  }

  predicate LineFree(s: string) { '\r' !in s && '\n' !in s && '\0' !in s }

  lemma LineFreeIsToken(s: string)
    requires LineFree(s) && |s| > 0
    ensures Text.IsToken(s, LineDelims)
  {
    forall i | 0 <= i < |s| ensures s[i] !in LineDelims {
      assert s[i] in s;
    }
  }

  lemma {:induction false} TerminatedCString(lines: seq<string>)
    requires forall i :: 0 <= i < |lines| ==> LineFree(lines[i])
    ensures Text.IsCString(Text.Terminated(lines, CRLF))
  {
    if lines != [] {
      TerminatedCString(lines[1..]);
    }
  }

  /** The lines pack writes before the parameters: the service line if any, then the command. */
  function HeadLines(service: Option<string>, command: string): seq<string> {
    if service.Some? then ["[" + service.value + "]", command] else [command]
  }

  predicate AllLineFree(lines: seq<string>) {
    forall i :: 0 <= i < |lines| ==> LineFree(lines[i]) && |lines[i]| > 0
  }

  lemma HeadLinesLineFree(service: Option<string>, command: string)
    requires service.Some? ==> LineFree(service.value)
    requires LineFree(command) && |command| > 0
    ensures AllLineFree(HeadLines(service, command))
  {
    if service.Some? {
      var sl := "[" + service.value + "]";
      forall c | c in sl ensures c != '\r' && c != '\n' && c != '\0' {
        var i :| 0 <= i < |sl| && sl[i] == c;
        if 0 < i < |sl| - 1 { assert sl[i] == service.value[i - 1]; }
      }
    }
  }

  lemma PackedAsLines(service: Option<string>, command: string, lines: seq<string>)
    requires service.Some? ==> LineFree(service.value)
    requires LineFree(command) && |command| > 0
    requires AllLineFree(lines)
    ensures var m := Message(service, Some(command), Some(Text.Terminated(lines, CRLF)));
      Packable(m) && Packed(m) == Text.Terminated(HeadLines(service, command) + lines, CRLF) + CRLF
  {
    TerminatedCString(lines);
    var heads := HeadLines(service, command);
    assert Text.Terminated(heads, CRLF) == ServicePart(service) + command + CRLF by {
      assert Text.Terminated([command], CRLF) == command + CRLF + Text.Terminated([], CRLF);
      if service.Some? { assert heads[1..] == [command]; }
    }
    TerminatedAppend(heads, lines, CRLF);
  }

  lemma TokensOfLines(all: seq<string>)
    requires AllLineFree(all)
    ensures Text.Tokens(Text.CPrefix(Text.Terminated(all, CRLF) + CRLF), LineDelims) == all
  {
    TerminatedCString(all);
    Text.CPrefixOfCString(Text.Terminated(all, CRLF) + CRLF);
    forall i | 0 <= i < |all| ensures Text.IsToken(all[i], LineDelims) {
      LineFreeIsToken(all[i]);
    }
    Text.TokensOfTerminated(all, CRLF, CRLF, LineDelims);
    Text.TokensSkip(CRLF, [], LineDelims);
    assert CRLF + [] == CRLF;
  }

  /**
   * Round trip: with CR/LF-free service and command, parameters made of
   * non-empty CR LF-terminated lines, and lengths the uint8_t counters
   * hold, unpack(pack(m)) restores the command and the parameter lines,
   * restores the service or reads "HAN" for a NULL one, and reads an
   * empty parameter block back as NULL.
   */
  lemma PackUnpack(service: Option<string>, command: string, lines: seq<string>)
    requires service.Some? ==> LineFree(service.value) && |service.value| + 2 < 256
    requires LineFree(command) && 0 < |command| < 256
    requires service.None? ==> command[0] != '['
    requires AllLineFree(lines)
    ensures var m := Message(service, Some(command), Some(Text.Terminated(lines, CRLF)));
      Packable(m) &&
      Unpacked(Packed(m)) == Some(Message(Some(service.GetOr("HAN")), Some(command),
                                          if lines == [] then None else Some(Text.Terminated(lines, CRLF))))
  {
    var heads := HeadLines(service, command);
    HeadLinesLineFree(service, command);
    var all := heads + lines;
    assert AllLineFree(all) by {
      forall i | 0 <= i < |all| ensures LineFree(all[i]) && |all[i]| > 0 {
        if i >= |heads| { assert all[i] == lines[i - |heads|]; }
      }
    }
    PackedAsLines(service, command, lines);
    TokensOfLines(all);
    if service.Some? {
      var sl := all[0];
      assert sl == "[" + service.value + "]";
      assert Text.ToU8(|sl|) == |sl|;
      assert sl[1..|sl| - 1] == service.value;
      assert all[1..] == [command] + lines;
      assert all[1..][1..] == lines;
      assert CommandOf(all[1..][0]) == command;
    } else {
      assert all == [command] + lines;
      assert all[1..] == lines;
      assert CommandOf(all[0]) == command;
    }
  }

  lemma {:induction false} TerminatedAppend(a: seq<string>, b: seq<string>, sep: string)
    ensures Text.Terminated(a + b, sep) == Text.Terminated(a, sep) + Text.Terminated(b, sep)
  {
    if a != [] {
      assert (a + b)[1..] == a[1..] + b;
      TerminatedAppend(a[1..], b, sep);
    } else {
      assert a + b == b;
    }
  }

  // ---- Request bodies (send_init_message, open/close_registration, get_device_table)

  function InitRequest(): Message {
    Message(None, Some("INIT"), Some(" VERSION: 1" + CRLF))
  }

  function OpenRegistrationRequest(): Message {
    Message(None, Some("OPEN_REG"), Some(" TIME: 60" + CRLF))
  }

  function CloseRegistrationRequest(): Message {
    Message(None, Some("CLOSE_REG"), None)
  }

  /** get_device_table(start_index, no_of_devices): both values are uint8_t. */
  function GetDeviceTableRequest(startIndex: nat, noOfDevices: nat): Message
    requires startIndex < 256 && noOfDevices < 256
  {
    Message(None, Some("GET_DEV_TABLE"),
            Some((" DEV_INDEX: " + Text.NatToDecimal(startIndex)) + CRLF
                 + (" HOW_MANY: " + Text.NatToDecimal(noOfDevices)) + CRLF))
  }

  /** The datagrams the three fixed requests put on the wire. */
  lemma FixedRequestBytes()
    ensures Packable(InitRequest()) && Packed(InitRequest()) == "INIT\r\n VERSION: 1\r\n\r\n"
    ensures Packable(OpenRegistrationRequest()) && Packed(OpenRegistrationRequest()) == "OPEN_REG\r\n TIME: 60\r\n\r\n"
    ensures Packable(CloseRegistrationRequest()) && Packed(CloseRegistrationRequest()) == "CLOSE_REG\r\n\r\n"
  {
  }

  /** The two parameter lines of GET_DEV_TABLE. */
  function GetDeviceTableLines(startIndex: nat, noOfDevices: nat): seq<string> {
    [" DEV_INDEX: " + Text.NatToDecimal(startIndex), " HOW_MANY: " + Text.NatToDecimal(noOfDevices)]
  }

  /** Unpacking the GET_DEV_TABLE datagram gives back its command and both parameter lines. */
  lemma GetDeviceTableRoundTrip(startIndex: nat, noOfDevices: nat)
    requires startIndex < 256 && noOfDevices < 256
    ensures var m := GetDeviceTableRequest(startIndex, noOfDevices);
      Packable(m) && Unpacked(Packed(m))
        == Some(Message(Some("HAN"), Some("GET_DEV_TABLE"),
                        Some(Text.Terminated(GetDeviceTableLines(startIndex, noOfDevices), CRLF))))
  {
    var lines := GetDeviceTableLines(startIndex, noOfDevices);
    TwoLines(lines[0], lines[1]);
    DecimalLine(" DEV_INDEX: ", startIndex);
    DecimalLine(" HOW_MANY: ", noOfDevices);
    assert AllLineFree(lines);
    assert LineFree("GET_DEV_TABLE");
    PackUnpack(None, "GET_DEV_TABLE", lines);
  }

  lemma TwoLines(l0: string, l1: string)
    ensures Text.Terminated([l0, l1], CRLF) == l0 + CRLF + l1 + CRLF
  {
    assert [l0, l1][1..] == [l1];
    assert [l1][1..] == [];
    assert Text.Terminated([l1], CRLF) == l1 + CRLF + [];
    assert l1 + CRLF + [] == l1 + CRLF;
  }

  /** A label followed by a decimal number is one line. */
  lemma DecimalLine(tag: string, n: nat)
    requires LineFree(tag)
    ensures LineFree(tag + Text.NatToDecimal(n))
  {
    var d := Text.NatToDecimal(n);
    forall c | c in d ensures c != '\r' && c != '\n' && c != '\0' {
      var i :| 0 <= i < |d| && d[i] == c;
      assert Text.IsDigit(d[i]);
    }
  }

  /** Such a line carries its value after the label, as atoi reads it. */
  lemma DecimalField(tag: string, n: nat)
    ensures Text.Atoi(Text.Drop(tag + Text.NatToDecimal(n), |tag|)) == n
  {
    var d := Text.NatToDecimal(n);
    assert (tag + d)[|tag|..] == d + [];
    Text.AtoiOfDecimal(n, []);
  }

  /** What get_device_table allocates for the parameters: 28 + strlen(index). */
  function ParametersCapacityAsWritten(startIndex: nat): nat {
    28 + |Text.NatToDecimal(startIndex)|
  }

  /** What the formatted parameters occupy, with their terminating NUL. */
  function ParametersNeeded(startIndex: nat, noOfDevices: nat): nat
    requires startIndex < 256 && noOfDevices < 256
  {
    |GetDeviceTableRequest(startIndex, noOfDevices).parameters.value| + 1
  }

  /**
   * The sprintf into the parameters buffer always writes as many bytes
   * past its end as HOW_MANY has digits, and the three-byte index buffer
   * is one byte short for an index of 100 or more.
   */
  lemma ParametersOverflowAsWritten(startIndex: nat, noOfDevices: nat)
    requires startIndex < 256 && noOfDevices < 256
    ensures ParametersNeeded(startIndex, noOfDevices)
            == ParametersCapacityAsWritten(startIndex) + |Text.NatToDecimal(noOfDevices)|
    ensures ParametersNeeded(startIndex, noOfDevices) > ParametersCapacityAsWritten(startIndex)
    ensures startIndex >= 100 ==> |Text.NatToDecimal(startIndex)| + 1 > 3
  {
    if startIndex >= 100 {
      DecimalLength(startIndex);
    }
  }

  lemma DecimalLength(n: nat)
    requires n >= 100
    ensures |Text.NatToDecimal(n)| >= 3
  {
    assert Text.NatToDecimal(n) == Text.NatToDecimal(n / 10) + [Text.DigitChar(n % 10)];
    assert Text.NatToDecimal(n / 10) == Text.NatToDecimal(n / 100) + [Text.DigitChar(n / 10 % 10)];
  }

  /** A buffer that holds both numbers and the terminator. */
  function ParametersCapacity(startIndex: nat, noOfDevices: nat): nat {
    28 + |Text.NatToDecimal(startIndex)| + |Text.NatToDecimal(noOfDevices)|
  }

  lemma ParametersCapacityFits(startIndex: nat, noOfDevices: nat)
    requires startIndex < 256 && noOfDevices < 256
    ensures ParametersNeeded(startIndex, noOfDevices) == ParametersCapacity(startIndex, noOfDevices)
  {
  }

  // ---- DEV_TABLE replies (DeviceTableMessage::unpack)

  /** One device of the table; a field whose line was missing is None. */
  datatype DeviceEntry = DeviceEntry(id: Option<nat>, ipui: Option<seq<nat>>, emc: Option<seq<nat>>)

  datatype DeviceTable = DeviceTable(devIndex: nat, noOfDevices: nat, entries: seq<DeviceEntry>)

  /** Up to max space-separated numbers, each through atoi and a uint8_t cast. */
  function ParseBytes(value: string, max: nat): (r: seq<nat>)
    ensures |r| <= max
    ensures forall i :: 0 <= i < |r| ==> r[i] < 256
  {
    var toks := Text.Tokens(value, {' '});
    var k := if |toks| < max then |toks| else max;
    seq(k, i requires 0 <= i < k => Text.ToU8(Text.Atoi(toks[i])))
  }

  /** The IPUI value: the text after the 11-character prefix, at most 5 bytes. */
  function IpuiOf(line: string): seq<nat> {
    ParseBytes(Text.Drop(line, 11), 5)
  }

  /**
   * The EMC value as line 239 copies it: from index 11, one past the
   * 10-character prefix, at most 2 bytes.
   */
  function EmcOfAsWritten(line: string): seq<nat> {
    ParseBytes(Text.Drop(line, 11), 2)
  }

  /** The EMC value read from just after " DEV_EMC: ", as the copy evidently intends. */
  function EmcOf(line: string): seq<nat> {
    ParseBytes(Text.Drop(line, 10), 2)
  }

  /** The as-written copy loses the EMC's first digit. */
  lemma EmcFirstDigitDroppedAsWritten()
    ensures EmcOfAsWritten(" DEV_EMC: 7") == []
    ensures EmcOf(" DEV_EMC: 7") == [7]
  {
    var line := " DEV_EMC: 7";
    assert Text.Drop(line, 11) == [];
    assert Text.Drop(line, 10) == "7";
    assert Text.Tokens("7", {' '}) == ["7"] by {
      Text.TokensCons("7", [], {' '});
      assert "7" + [] == "7";
    }
    assert Text.Atoi("7") == 7 by {
      Text.AtoiOfNat(7);
      assert Text.NatToDecimal(7) == "7";
    }
  }

  /**
   * On a well-formed line whose first byte has one digit, the copy as
   * written loses that byte and reads the second in its place.
   */
  lemma EmcShiftedAsWritten(a: nat, b: nat)
    requires a < 10 && b < 256
    ensures EmcOfAsWritten(EmcTag + (Text.NatToDecimal(a) + (" " + Text.NatToDecimal(b)))) == [b]
  {
    var da, db := Text.NatToDecimal(a), Text.NatToDecimal(b);
    assert da == [Text.DigitChar(a)];
    var line := EmcTag + (da + (" " + db));
    assert Text.Drop(line, 11) == " " + db;
    NoSpaceIsToken(db);
    Text.TokensSkip(" ", db, {' '});
    Text.TokensCons(db, [], {' '});
    assert db + [] == db;
    Text.AtoiOfNat(b);
  }

  /** The corrected read returns exactly the two bytes a well-formed line lists. */
  lemma EmcReadsBack(a: nat, b: nat)
    requires a < 256 && b < 256
    ensures EmcOf(EmcTag + (Text.NatToDecimal(a) + (" " + Text.NatToDecimal(b)))) == [a, b]
  {
    var da, db := Text.NatToDecimal(a), Text.NatToDecimal(b);
    var value := da + (" " + db);
    assert (EmcTag + value)[10..] == value;
    SpaceSeparated(da, db);
    TwoBytes(value, da, db);
    Text.AtoiOfNat(a);
    Text.AtoiOfNat(b);
  }

  /** Two tokens, read as two bytes. */
  lemma TwoBytes(value: string, x: string, y: string)
    requires Text.Tokens(value, {' '}) == [x, y]
    ensures ParseBytes(value, 2) == [Text.ToU8(Text.Atoi(x)), Text.ToU8(Text.Atoi(y))]
  {
  }

  lemma SpaceSeparated(da: string, db: string)
    requires |da| > 0 && Text.AllDigits(da) && |db| > 0 && Text.AllDigits(db)
    ensures Text.Tokens(da + (" " + db), {' '}) == [da, db]
  {
    NoSpaceIsToken(da);
    NoSpaceIsToken(db);
    Text.TokensCons(da, " " + db, {' '});
    Text.TokensSkip(" ", db, {' '});
    Text.TokensCons(db, [], {' '});
    assert db + [] == db;
  }

  lemma NoSpaceIsToken(d: string)
    requires |d| > 0 && Text.AllDigits(d)
    ensures Text.IsToken(d, {' '})
  {
  }

  const IdTag: string := " DEV_ID: "
  const IpuiTag: string := " DEV_IPUI: "
  const EmcTag: string := " DEV_EMC: "

  /**
   * One pass of the entry loop from line j through its first `field`
   * fields (0 DEV_ID, 1 DEV_IPUI, 2 DEV_EMC): each field's line is
   * consumed when it matches. The line after them, or None where strncmp
   * would be handed a NULL line; with all three fields, where the next
   * pass starts.
   */
  function EntryPass(lines: seq<string>, j: nat, field: nat): (r: Option<nat>)
    requires j < |lines| && field <= 3
    ensures r.Some? ==> j <= r.value <= j + field && r.value <= |lines|
    decreases field
  {
    if field == 0 then Some(j)
    else
      match EntryPass(lines, j, field - 1)
      case None => None
      case Some(p) =>
        if p == |lines| then None
        else if Text.StartsWith(lines[p], FieldTag(field - 1)) then Some(p + 1) else Some(p)
  }

  function FieldTag(field: nat): string {
    if field == 0 then IdTag else if field == 1 then IpuiTag else EmcTag
  }

  /** The entry the pass from j reads: each field whose line matched, None for the others. */
  function EntryAt(lines: seq<string>, j: nat): DeviceEntry
    requires j < |lines|
  {
    var k1, k2 := EntryPass(lines, j, 1), EntryPass(lines, j, 2);
    DeviceEntry(IdLine(lines[j]),
                if k1.Some? && k1.value < |lines| then IpuiLine(lines[k1.value]) else None,
                if k2.Some? && k2.value < |lines| then EmcLine(lines[k2.value]) else None)
  }

  /** A DEV_ID line: the id after the tag, through atoi and a uint16_t cast. */
  function IdLine(line: string): Option<nat> {
    if Text.StartsWith(line, IdTag) then Some(Text.ToU16(Text.Atoi(Text.Drop(line, 9)))) else None
  }

  /** A DEV_IPUI line: its bytes. */
  function IpuiLine(line: string): Option<seq<nat>> {
    if Text.StartsWith(line, IpuiTag) then Some(IpuiOf(line)) else None
  }

  /** A DEV_EMC line: its bytes. */
  function EmcLine(line: string): Option<seq<nat>> {
    if Text.StartsWith(line, EmcTag) then Some(EmcOfAsWritten(line)) else None
  }

  /** Where the pass over one whole entry from line j ends. */
  function NextEntry(lines: seq<string>, j: nat): Option<nat>
    requires j < |lines|
  {
    EntryPass(lines, j, 3)
  }

  /**
   * `pass` and `read` can be applied at every line from j on, and a pass
   * never moves back nor beyond the last line.
   */
  ghost predicate Readers(lines: seq<string>, j: nat, pass: (seq<string>, nat) --> Option<nat>,
                          read: (seq<string>, nat) --> DeviceEntry)
  {
    forall i :: j <= i < |lines| ==>
      && pass.requires(lines, i) && read.requires(lines, i)
      && (pass(lines, i).Some? ==> i <= pass(lines, i).value <= |lines|)
  }

  lemma EntryReaders(lines: seq<string>, j: nat)
    ensures Readers(lines, j, NextEntry, EntryAt)
  {
  }

  /**
   * The entry loop from line j: while a line remains and fewer than k more
   * entries were read, `read` takes the fields of the entry at the current
   * line and `pass` moves past them.
   */
  function Entries(lines: seq<string>, j: nat, k: nat, pass: (seq<string>, nat) --> Option<nat>,
                   read: (seq<string>, nat) --> DeviceEntry)
    : (r: Option<seq<DeviceEntry>>)
    requires j <= |lines| && Readers(lines, j, pass, read)
    ensures r.Some? ==> |r.value| <= k
    decreases k
  {
    if j == |lines| || k == 0 then Some([])
    else
      match pass(lines, j)
      case None => None
      case Some(next) =>
        match Entries(lines, next, k - 1, pass, read)
        case None => None
        case Some(es) => Some([read(lines, j)] + es)
  }

  /** DeviceTableMessage::unpack of the DEV_TABLE parameters; None where it is undefined. */
  function DeviceTableOf(parameters: Option<string>): Option<DeviceTable> {
    if parameters.None? then None
    else
      var lines := Text.Tokens(Text.CPrefix(parameters.value), LineDelims);
      if lines == [] || !Text.StartsWith(lines[0], " DEV_INDEX: ") then Some(DeviceTable(0, 0, []))
      else
        var index := Text.ToU8(Text.Atoi(Text.Drop(lines[0], 12)));
        if |lines| < 2 then None
        else
          var n := if Text.StartsWith(lines[1], " NO_OF_DEVICES: ")
                   then Text.ToU8(Text.Atoi(Text.Drop(lines[1], 16))) else 0;
          if n == 0 then Some(DeviceTable(index, 0, []))
          else
            EntryReaders(lines, 2);
            match Entries(lines, 2, n, NextEntry, EntryAt)
            case None => None
            case Some(es) => Some(DeviceTable(index, n, es))
  }

  /** The table never lists more entries than NO_OF_DEVICES announced. */
  lemma EntriesBounded(parameters: Option<string>)
    ensures var t := DeviceTableOf(parameters); t.Some? ==> |t.value.entries| <= t.value.noOfDevices
  {
  }

  function Prepend(acc: seq<DeviceEntry>, r: Option<seq<DeviceEntry>>): Option<seq<DeviceEntry>> {
    if r.None? then None else Some(acc + r.value)
  }

  /** DeviceTableMessage::unpack: strtok_r over the lines, then the entry while-loop. */
  method UnpackDeviceTable(parameters: Option<string>) returns (r: Option<DeviceTable>)
    ensures r == DeviceTableOf(parameters)
  {
    if parameters.None? {
      return None;
    }
    var lines := Text.SplitTokens(Text.CPrefix(parameters.value), LineDelims);
    if lines == [] || !Text.StartsWith(lines[0], " DEV_INDEX: ") {
      return Some(DeviceTable(0, 0, []));
    }
    var index := Text.ToU8(Text.Atoi(Text.Drop(lines[0], 12)));
    if |lines| < 2 {
      return None;
    }
    var n := 0;
    if Text.StartsWith(lines[1], " NO_OF_DEVICES: ") {
      n := Text.ToU8(Text.Atoi(Text.Drop(lines[1], 16)));
    }
    if n == 0 {
      return Some(DeviceTable(index, 0, []));
    }
    EntryReaders(lines, 2);
    var entries := ReadEntries(lines, n, NextEntry, EntryAt);
    r := if entries.None? then None else Some(DeviceTable(index, n, entries.value));
  }

  lemma EntriesUnfold(lines: seq<string>, j: nat, k: nat, pass: (seq<string>, nat) --> Option<nat>,
                      read: (seq<string>, nat) --> DeviceEntry)
    requires j < |lines| && k > 0 && Readers(lines, j, pass, read) && pass(lines, j).Some?
    ensures Entries(lines, j, k, pass, read)
            == Prepend([read(lines, j)], Entries(lines, pass(lines, j).value, k - 1, pass, read))
  {
  }

  lemma PrependNothing(r: Option<seq<DeviceEntry>>)
    ensures Prepend([], r) == r
  {
    if r.Some? {
      assert [] + r.value == r.value;
    }
  }

  lemma PrependAssoc(acc: seq<DeviceEntry>, e: DeviceEntry, r: Option<seq<DeviceEntry>>)
    ensures Prepend(acc, Prepend([e], r)) == Prepend(acc + [e], r)
  {
    if r.Some? {
      assert acc + ([e] + r.value) == (acc + [e]) + r.value;
    }
  }

  /** One pass of the entry loop moves one entry from what remains to what was read. */
  lemma EntriesStep(lines: seq<string>, n: nat, j: nat, k: nat, pass: (seq<string>, nat) --> Option<nat>,
                    read: (seq<string>, nat) --> DeviceEntry, entries: seq<DeviceEntry>, next: nat)
    requires 2 <= j < |lines| && k > 0 && Readers(lines, 2, pass, read) && pass(lines, j) == Some(next)
    requires Entries(lines, 2, n, pass, read) == Prepend(entries, Entries(lines, j, k, pass, read))
    ensures 2 <= next <= |lines|
    ensures Entries(lines, 2, n, pass, read)
            == Prepend(entries + [read(lines, j)], Entries(lines, next, k - 1, pass, read))
  {
    EntriesUnfold(lines, j, k, pass, read);
    PrependAssoc(entries, read(lines, j), Entries(lines, next, k - 1, pass, read));
  }

  /**
   * The entry while-loop of DeviceTableMessage::unpack, from the third
   * line on, with `pass` finding where each entry ends and `read` taking
   * its fields.
   */
  method ReadEntries(lines: seq<string>, n: nat, pass: (seq<string>, nat) --> Option<nat>,
                     read: (seq<string>, nat) --> DeviceEntry)
    returns (r: Option<seq<DeviceEntry>>)
    requires 2 <= |lines| && Readers(lines, 2, pass, read)
    ensures r == Entries(lines, 2, n, pass, read)
  {
    var j := 2;
    var i := 0;
    // the number of entries still to read, n - i
    var left := n;
    var entries: seq<DeviceEntry> := [];
    PrependNothing(Entries(lines, 2, n, pass, read));
    while j < |lines| && i < n
      invariant 2 <= j <= |lines| && 0 <= i <= n && left == n - i
      invariant Entries(lines, 2, n, pass, read) == Prepend(entries, Entries(lines, j, left, pass, read))
      decreases left
    {
      var next := pass(lines, j);
      if next.None? { return None; }
      var entry := read(lines, j);
      EntriesStep(lines, n, j, left, pass, read, entries, next.value);
      entries := entries + [entry];
      j := next.value;
      i := i + 1;
      left := left - 1;
    }
    assert entries + [] == entries;
    r := Some(entries);
  }

  /** The default DeviceTableMessage constructor allocates one IPUI and one EMC slot. */
  const DefaultSlots: nat := 1

  /** Whether filling the entries writes an IPUI or EMC slot at or past slots. */
  predicate WritesPastSlots(entries: seq<DeviceEntry>, slots: nat) {
    exists i :: slots <= i < |entries| && (entries[i].ipui.Some? || entries[i].emc.Some?)
  }

  /** A two-device table already writes past the one slot client_recv_cb's message has. */
  lemma DefaultSlotsOverflowAsWritten(e: DeviceEntry)
    requires e.ipui.Some?
    ensures WritesPastSlots([e, e], DefaultSlots)
  {
    assert [e, e][1] == e;
  }

  /** Slots sized by NO_OF_DEVICES, as the two-argument constructor allocates, always suffice. */
  lemma AnnouncedSlotsSuffice(parameters: Option<string>)
    ensures var t := DeviceTableOf(parameters);
      t.Some? ==> !WritesPastSlots(t.value.entries, t.value.noOfDevices)
  {
  }

  // ---- The client object and client_recv_cb's dispatch

  /** What a received datagram leads to. */
  datatype Received =
    | Initialised
    | TableReceived(context: Option<nat>, table: DeviceTable)
    | Ignored
    | Undefined

  class Client {
    var initialized: bool
    /** HanClient::context_, handed back with each device table; None until set. */
    var context: Option<nat>

    constructor ()
      ensures !initialized && context.None?
    {
      initialized := false;
      context := None;
    }

    /** set_initialized ignores its argument. */
    method SetInitialized(value: bool)
      modifies this
      ensures initialized && context == old(context)
    {
      initialized := true;
    }

    /** get_device_table: records the context and sends the request. */
    method GetDeviceTable(startIndex: nat, noOfDevices: nat, ctx: nat) returns (datagram: string)
      requires startIndex < 256 && noOfDevices < 256
      modifies this
      ensures context == Some(ctx) && initialized == old(initialized)
      ensures datagram == Packed(GetDeviceTableRequest(startIndex, noOfDevices))
    {
      var buffer, length := Pack(GetDeviceTableRequest(startIndex, noOfDevices));
      datagram := buffer[..];
      context := Some(ctx);
    }

    /**
     * client_recv_cb for a non-empty datagram: INIT_RES marks the client
     * initialised, DEV_TABLE is parsed and handed on with the context,
     * any other command is ignored. A NULL command reaches strcmp.
     */
    method Receive(datagram: string) returns (r: Received)
      modifies this
      ensures context == old(context)
      ensures r == Dispatch(datagram, old(context))
      ensures initialized == (old(initialized) || r == Initialised)
    {
      var msg := Unpack(datagram);
      if msg.None? || msg.value.command.None? {
        return Undefined;
      }
      var command := msg.value.command.value;
      if command == "INIT_RES" {
        SetInitialized(true);
        r := Initialised;
      } else if command == "DEV_TABLE" {
        var table := UnpackDeviceTable(msg.value.parameters);
        r := if table.None? then Undefined else TableReceived(context, table.value);
      } else {
        r := Ignored;
      }
    }
  }

  /** The outcome of client_recv_cb, as a function of the datagram and the stored context. */
  function Dispatch(datagram: string, context: Option<nat>): Received {
    var msg := Unpacked(datagram);
    if msg.None? || msg.value.command.None? then Undefined
    else if msg.value.command.value == "INIT_RES" then Initialised
    else if msg.value.command.value == "DEV_TABLE" then
      var t := DeviceTableOf(msg.value.parameters);
      if t.None? then Undefined else TableReceived(context, t.value)
    else Ignored
  }

  /** Only the two known commands have an effect. */
  lemma DispatchOtherIgnored(datagram: string, context: Option<nat>)
    requires var m := Unpacked(datagram);
      m.Some? && m.value.command.Some? && m.value.command.value != "INIT_RES" && m.value.command.value != "DEV_TABLE"
    ensures Dispatch(datagram, context) == Ignored
  {
  }
}
