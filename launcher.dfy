// samples/hanfun_bridge.cpp: the launcher's own logic, namely the
// persistent-storage file names, the seen-state file a plugin writes and
// the manager reads, the command-line loop, and the resource-directory
// address a plugin builds from a discovery response.
module Launcher {
  import opened Wrappers
  import opened Text
  import Resources
  import Bridge

  // ---------------------------------------------------------------------
  // File names
  // ---------------------------------------------------------------------

  const DefaultStoragePrefix: string := "HanFunBridge_"
  const SeenStateSuffix: string := "seen.state"

  /** GetFilename: the prefix, then the uuid and "_" when there is a uuid, then the suffix when there is one. */
  function Filename(prefix: string, uuid: Option<string>, suffix: Option<string>): (path: string) {
    prefix + (if uuid.Some? then uuid.value + "_" else "") + (if suffix.Some? then suffix.value else "")
  }

  /** The file name starts with the prefix, holds the uuid and its "_" right after it, and ends with the suffix. */
  lemma FilenameParts(prefix: string, uuid: Option<string>, suffix: Option<string>)
    ensures var path := Filename(prefix, uuid, suffix);
            var u := if uuid.Some? then |uuid.value| + 1 else 0;
            var s := if suffix.Some? then suffix.value else "";
            && |path| == |prefix| + u + |s|
            && path[..|prefix|] == prefix
            && (uuid.Some? ==> path[|prefix|..|prefix| + u - 1] == uuid.value && path[|prefix| + u - 1] == '_')
            && path[|prefix| + u..] == s
  {
    var path := Filename(prefix, uuid, suffix);
    var mid := if uuid.Some? then uuid.value + "_" else "";
    var s := if suffix.Some? then suffix.value else "";
    assert path == prefix + mid + s;
    assert path[..|prefix|] == prefix;
    assert path[|prefix| + |mid|..] == s;
    if uuid.Some? {
      assert path[|prefix|..|prefix| + |mid| - 1] == mid[..|mid| - 1] == uuid.value;
      assert path[|prefix| + |mid| - 1] == mid[|mid| - 1];
    }
  }

  /** Distinct uuids of one length (OCF uuid strings all have 36 characters) get distinct files. */
  lemma DistinctUuidsDistinctFiles(prefix: string, u1: string, u2: string, suffix: Option<string>)
    requires |u1| == |u2| && u1 != u2
    ensures Filename(prefix, Some(u1), suffix) != Filename(prefix, Some(u2), suffix)
  {
    FilenameParts(prefix, Some(u1), suffix);
    FilenameParts(prefix, Some(u2), suffix);
  }

  // ---------------------------------------------------------------------
  // Seen state
  // ---------------------------------------------------------------------


  /** What a plugin writes to its seen-state file. */
  function SeenStateText(isVirtual: bool): string {
    if isVirtual then "virtual" else "native"
  }

  /** The first white-space delimited word of `s`, as fscanf("%s") reads it; None when there is none. */
  function FirstWord(s: string): (r: Option<string>)
    ensures r.Some? ==> |r.value| > 0 && forall k :: 0 <= k < |r.value| ==> !IsSpace(r.value[k])
  {
    var t := SkipSpaces(s);
    if t == [] then None else Some(WordPrefix(t))
  }

  /** The longest run of non-space characters at the start of s. */
  function WordPrefix(s: string): (r: string)
    requires s != [] && !IsSpace(s[0])
    ensures 0 < |r| <= |s| && r == s[..|r|]
    ensures forall k :: 0 <= k < |r| ==> !IsSpace(r[k])
    ensures |r| < |s| ==> IsSpace(s[|r|])
    decreases |s|
  {
    if |s| == 1 || IsSpace(s[1]) then [s[0]] else [s[0]] + WordPrefix(s[1..])
  }

  /**
   * GetSeenStateCB on the contents of the seen-state file (None: no file):
   * no file is NOT_SEEN, a first word "virtual" is SEEN_VIRTUAL and
   * anything else SEEN_NATIVE. An empty file leaves the buffer as it was,
   * `stale`.
   */
  function DecodeSeenState(contents: Option<string>, stale: string): (r: Bridge.SeenState)
    ensures contents.None? <==> r == Bridge.NotSeen
    ensures contents.Some? && FirstWord(contents.value).Some? ==>
              (r == Bridge.SeenVirtual <==> CPrefix(FirstWord(contents.value).value) == "virtual")
  {
    if contents.None? then Bridge.NotSeen
    else
      var word := FirstWord(contents.value).GetOr(stale);
      if CPrefix(word) == "virtual" then Bridge.SeenVirtual else Bridge.SeenNative
  }

  /** What a plugin writes reads back as its own kind. */
  lemma SeenStateRoundTrip(isVirtual: bool, stale: string)
    ensures DecodeSeenState(Some(SeenStateText(isVirtual)), stale) == if isVirtual then Bridge.SeenVirtual else Bridge.SeenNative
  {
    var s := SeenStateText(isVirtual);
    assert !IsSpace(s[0]);
    assert SkipSpaces(s) == s;
    assert forall k :: 0 <= k < |s| ==> !IsSpace(s[k]) && s[k] != '\0';
    WordPrefixAll(s);
    CPrefixOfCString(s);
  }

  lemma {:induction false} WordPrefixAll(s: string)
    requires s != [] && forall k :: 0 <= k < |s| ==> !IsSpace(s[k])
    ensures WordPrefix(s) == s
    decreases |s|
  {
    if |s| > 1 {
      WordPrefixAll(s[1..]);
    }
  }

  // ---------------------------------------------------------------------
  // Command line
  // ---------------------------------------------------------------------

  /** The launcher's settings: the globals and locals main's argument loop sets. */
  datatype Options = Options(storagePrefix: string, protocols: bv8, uuid: Option<string>, sender: nat,
                             rdDi: Option<string>, isVirtual: bool, secureMode: bool)

  /** The settings before the loop; the secure-mode default is a build option (__WITH_DTLS__). */
  function Initial(secureDefault: bool): Options {
    Options(DefaultStoragePrefix, 0, None, 0, None, false, secureDefault)
  }

  predicate Valued(a: string) {
    a == "--ps" || a == "--uuid" || a == "--sender" || a == "--rd" || a == "--secureMode"
  }

  /** One pass of the loop at argument i: the new settings and the next index. */
  function Step(o: Options, argv: seq<string>, i: nat): (r: (Options, nat))
    requires i < |argv|
    ensures r.1 == i + 1 || (r.1 == i + 2 && r.1 <= |argv| && Valued(argv[i]))
  {
    var a := argv[i];
    var hasNext := i < |argv| - 1;
    if a == "--ps" && hasNext then (o.(storagePrefix := argv[i + 1]), i + 2)
    else if a == "--hf" then (o.(protocols := o.protocols | Bridge.HfBit), i + 1)
    else if a == "--oc" then (o.(protocols := o.protocols | Bridge.OcBit), i + 1)
    else if a == "--uuid" && hasNext then (o.(uuid := Some(argv[i + 1])), i + 2)
    else if a == "--sender" && hasNext then (o.(sender := ToU16(Strtol(argv[i + 1]))), i + 2)
    else if a == "--rd" && hasNext then (o.(rdDi := Some(argv[i + 1])), i + 2)
    else if a == "--virtual" then (o.(isVirtual := true), i + 1)
    else if a == "--secureMode" && hasNext then
      var mode := argv[i + 1];
      (o.(secureMode := if mode == "false" then false else if mode == "true" then true else o.secureMode), i + 2)
    else (o, i + 1)
  }

  /** The settings after the loop has run from argument i to the end. */
  function ParseFrom(o: Options, argv: seq<string>, i: nat): Options
    decreases |argv| - i
  {
    if i >= |argv| then o else ParseFrom(Step(o, argv, i).0, argv, Step(o, argv, i).1)
  }

  /** main's argument loop over argv[1..]. */
  method ParseArguments(argv: seq<string>, secureDefault: bool) returns (o: Options)
    ensures o == ParseFrom(Initial(secureDefault), argv, 1)
  {
    o := Initial(secureDefault);
    var i := 1;
    while i < |argv|
      invariant 1 <= i
      invariant ParseFrom(o, argv, i) == ParseFrom(Initial(secureDefault), argv, 1)
      decreases |argv| - i
    {
      ghost var before, at := o, i;
      var a := argv[i];
      if a == "--ps" && i < |argv| - 1 {
        i := i + 1;
        o := o.(storagePrefix := argv[i]);
      } else if a == "--hf" {
        o := o.(protocols := o.protocols | Bridge.HfBit);
      } else if a == "--oc" {
        o := o.(protocols := o.protocols | Bridge.OcBit);
      } else if a == "--uuid" && i < |argv| - 1 {
        i := i + 1;
        o := o.(uuid := Some(argv[i]));
      } else if a == "--sender" && i < |argv| - 1 {
        i := i + 1;
        o := o.(sender := ToU16(Strtol(argv[i])));
      } else if a == "--rd" && i < |argv| - 1 {
        i := i + 1;
        o := o.(rdDi := Some(argv[i]));
      } else if a == "--virtual" {
        o := o.(isVirtual := true);
      } else if a == "--secureMode" && i < |argv| - 1 {
        i := i + 1;
        var mode := argv[i];
        if mode == "false" {
          o := o.(secureMode := false);
        } else if mode == "true" {
          o := o.(secureMode := true);
        }
      }
      i := i + 1;
      assert (o, i) == Step(before, argv, at);
    }
  }

  /** The protocols the bridge is built with: the flags given, or both when neither was. */
  function Protocols(o: Options): (p: bv8)
    ensures o.protocols & !(Bridge.HfBit | Bridge.OcBit) == 0 ==> p == Bridge.HfBit || p == Bridge.OcBit || p == Bridge.HfBit | Bridge.OcBit
  {
    if o.protocols == 0 then Bridge.HfBit | Bridge.OcBit else o.protocols
  }

  /**
   * The protocol bits come only from "--hf" and "--oc" arguments: a bit
   * set after the loop was set before or is named by some argument, and
   * no other bit is ever set.
   */
  lemma {:induction false} ProtocolsFromFlags(o: Options, argv: seq<string>, i: nat)
    ensures var r := ParseFrom(o, argv, i);
            && r.protocols & !(Bridge.HfBit | Bridge.OcBit) == o.protocols & !(Bridge.HfBit | Bridge.OcBit)
            && (r.protocols & Bridge.HfBit != 0 ==> o.protocols & Bridge.HfBit != 0 || exists j :: i <= j < |argv| && argv[j] == "--hf")
            && (r.protocols & Bridge.OcBit != 0 ==> o.protocols & Bridge.OcBit != 0 || exists j :: i <= j < |argv| && argv[j] == "--oc")
    decreases |argv| - i
  {
    if i < |argv| {
      var (o', j) := Step(o, argv, i);
      ProtocolsFromFlags(o', argv, j);
      ProtocolBitsStep(o, argv, i);
      OrBits(o.protocols);
    }
  }

  /** One pass of the loop sets a protocol bit only for "--hf" or "--oc". */
  lemma ProtocolBitsStep(o: Options, argv: seq<string>, i: nat)
    requires i < |argv|
    ensures var q := Step(o, argv, i).0.protocols;
            || q == o.protocols
            || (argv[i] == "--hf" && q == o.protocols | Bridge.HfBit)
            || (argv[i] == "--oc" && q == o.protocols | Bridge.OcBit)
  {
  }

  /** Setting one protocol bit leaves the other bits alone. */
  lemma OrBits(p: bv8)
    ensures (p | Bridge.HfBit) & !(Bridge.HfBit | Bridge.OcBit) == p & !(Bridge.HfBit | Bridge.OcBit)
    ensures (p | Bridge.OcBit) & !(Bridge.HfBit | Bridge.OcBit) == p & !(Bridge.HfBit | Bridge.OcBit)
    ensures (p | Bridge.HfBit) & Bridge.OcBit == p & Bridge.OcBit
    ensures (p | Bridge.OcBit) & Bridge.HfBit == p & Bridge.HfBit
  {
  }

  /** With neither "--hf" nor "--oc" on the command line, the bridge runs both protocols. */
  lemma DefaultProtocols(argv: seq<string>, secureDefault: bool)
    requires forall j :: 1 <= j < |argv| ==> argv[j] != "--hf" && argv[j] != "--oc"
    ensures Protocols(ParseFrom(Initial(secureDefault), argv, 1)) == Bridge.HfBit | Bridge.OcBit
  {
    ProtocolsFromFlags(Initial(secureDefault), argv, 1);
  }

  /** One pass of the loop changes a valued setting only from the option at i and the argument after it. */
  lemma StepValues(o: Options, argv: seq<string>, i: nat)
    requires i < |argv|
    ensures var r := Step(o, argv, i).0;
            && (r.uuid != o.uuid ==> i < |argv| - 1 && argv[i] == "--uuid" && r.uuid == Some(argv[i + 1]))
            && (r.rdDi != o.rdDi ==> i < |argv| - 1 && argv[i] == "--rd" && r.rdDi == Some(argv[i + 1]))
            && (r.storagePrefix != o.storagePrefix ==> i < |argv| - 1 && argv[i] == "--ps" && r.storagePrefix == argv[i + 1])
            && (r.sender != o.sender ==> i < |argv| - 1 && argv[i] == "--sender" && r.sender == ToU16(Strtol(argv[i + 1])))
            && (r.secureMode != o.secureMode ==>
                  i < |argv| - 1 && argv[i] == "--secureMode" && argv[i + 1] == (if r.secureMode then "true" else "false"))
  {
    var a := argv[i];
    if i < |argv| - 1 && a == "--secureMode" {
      var mode := argv[i + 1];
      assert Step(o, argv, i).0.secureMode == if mode == "false" then false else if mode == "true" then true else o.secureMode;
    } else if !(i < |argv| - 1 && Valued(a)) {
      assert Step(o, argv, i).0 == o || a == "--hf" || a == "--oc" || a == "--virtual";
    }
  }

  /**
   * Each valued setting that differs from its start was given by an
   * option followed by its value; the secure mode changes only for a
   * value of exactly "true" or "false".
   */
  lemma {:induction false} UuidFromArguments(o: Options, argv: seq<string>, i: nat)
    ensures var r := ParseFrom(o, argv, i);
            r.uuid != o.uuid ==> exists j :: i <= j < |argv| - 1 && argv[j] == "--uuid" && r.uuid == Some(argv[j + 1])
    decreases |argv| - i
  {
    if i < |argv| {
      var (o', k) := Step(o, argv, i);
      StepValues(o, argv, i);
      UuidFromArguments(o', argv, k);
    }
  }

  lemma {:induction false} RdFromArguments(o: Options, argv: seq<string>, i: nat)
    ensures var r := ParseFrom(o, argv, i);
            r.rdDi != o.rdDi ==> exists j :: i <= j < |argv| - 1 && argv[j] == "--rd" && r.rdDi == Some(argv[j + 1])
    decreases |argv| - i
  {
    if i < |argv| {
      var (o', k) := Step(o, argv, i);
      StepValues(o, argv, i);
      RdFromArguments(o', argv, k);
    }
  }

  lemma {:induction false} PrefixFromArguments(o: Options, argv: seq<string>, i: nat)
    ensures var r := ParseFrom(o, argv, i);
            r.storagePrefix != o.storagePrefix ==> exists j :: i <= j < |argv| - 1 && argv[j] == "--ps" && r.storagePrefix == argv[j + 1]
    decreases |argv| - i
  {
    if i < |argv| {
      var (o', k) := Step(o, argv, i);
      StepValues(o, argv, i);
      PrefixFromArguments(o', argv, k);
    }
  }

  lemma {:induction false} SenderFromArguments(o: Options, argv: seq<string>, i: nat)
    ensures var r := ParseFrom(o, argv, i);
            r.sender != o.sender ==> exists j :: i <= j < |argv| - 1 && argv[j] == "--sender" && r.sender == ToU16(Strtol(argv[j + 1]))
    decreases |argv| - i
  {
    if i < |argv| {
      var (o', k) := Step(o, argv, i);
      StepValues(o, argv, i);
      SenderFromArguments(o', argv, k);
    }
  }

  /**
   * The sender is strtol's value cast to uint16_t: a decimal address below
   * 65536 reads back, and a value past the range of `long` saturates before
   * the cast, to 65535 above and to 0 below.
   */
  lemma SenderValue(s: string, n: nat)
    requires n < 65536
    ensures ToU16(Strtol(NatToDecimal(n))) == n
    ensures Atoi(s) > LongMax ==> ToU16(Strtol(s)) == 65535
    ensures Atoi(s) < LongMin ==> ToU16(Strtol(s)) == 0
  {
    AtoiOfNat(n);
  }

  lemma {:induction false} SecureModeFromArguments(o: Options, argv: seq<string>, i: nat)
    ensures var r := ParseFrom(o, argv, i);
            r.secureMode != o.secureMode ==>
              exists j :: i <= j < |argv| - 1 && argv[j] == "--secureMode" && argv[j + 1] == (if r.secureMode then "true" else "false")
    decreases |argv| - i
  {
    if i < |argv| {
      var (o', k) := Step(o, argv, i);
      StepValues(o, argv, i);
      SecureModeFromArguments(o', argv, k);
    }
  }

  /** A valued option with nothing after it is skipped. */
  lemma DanglingOptionIgnored(o: Options, argv: seq<string>)
    requires |argv| > 0 && Valued(argv[|argv| - 1])
    ensures ParseFrom(o, argv, |argv| - 1) == o
  {
    assert Step(o, argv, |argv| - 1) == (o, |argv|);
  }

  /** How main builds the bridge: a plugin for a uuid with a non-zero sender, else the plugin manager. */
  datatype BridgeMode = Plugin(sender: nat) | Manager(protocols: bv8)

  function Mode(o: Options): (m: BridgeMode)
    ensures m.Plugin? <==> o.uuid.Some? && o.sender != 0
    ensures m.Manager? ==> m.protocols != 0
  {
    if o.uuid.Some? && o.sender != 0 then Plugin(o.sender) else Manager(Protocols(o))
  }

  /** The files as main leaves them: a process started with a sender records whether it is virtual. */
  function RecordSeenState(files: map<string, string>, o: Options): map<string, string> {
    if o.sender != 0 then files[Filename(o.storagePrefix, o.uuid, Some(SeenStateSuffix)) := SeenStateText(o.isVirtual)]
    else files
  }

  /** GetSeenStateCB(uuid) against the files. */
  function SeenStateOf(files: map<string, string>, prefix: string, uuid: string, stale: string): Bridge.SeenState {
    var path := Filename(prefix, Some(uuid), Some(SeenStateSuffix));
    DecodeSeenState(if path in files then Some(files[path]) else None, stale)
  }

  /**
   * A plugin started with a uuid and a sender is seen by the manager
   * (sharing its storage prefix) as the kind it was started as, and the
   * seen state of every other uuid of that length is unchanged.
   */
  lemma PluginSeenAsItsKind(files: map<string, string>, o: Options, other: string, stale: string)
    requires o.uuid.Some? && o.sender != 0
    requires |other| == |o.uuid.value| && other != o.uuid.value
    ensures SeenStateOf(RecordSeenState(files, o), o.storagePrefix, o.uuid.value, stale)
            == if o.isVirtual then Bridge.SeenVirtual else Bridge.SeenNative
    ensures SeenStateOf(RecordSeenState(files, o), o.storagePrefix, other, stale)
            == SeenStateOf(files, o.storagePrefix, other, stale)
  {
    SeenStateRoundTrip(o.isVirtual, stale);
    DistinctUuidsDistinctFiles(o.storagePrefix, o.uuid.value, other, Some(SeenStateSuffix));
  }

  // ---------------------------------------------------------------------
  // Resource directory address
  // ---------------------------------------------------------------------

  /** The text a character is written as: '%' as "%25" (the zone separator, section 2 of RFC 6874), else itself. */
  function EscapeChar(c: char): string {
    if c == '%' then "%25" else [c]
  }

  function Escaped(s: string): string
    decreases |s|
  {
    if s == [] then [] else Escaped(s[..|s| - 1]) + EscapeChar(s[|s| - 1])
  }

  lemma {:induction false} EscapedCons(c: char, s: string)
    ensures Escaped([c] + s) == EscapeChar(c) + Escaped(s)
    decreases |s|
  {
    if s != [] {
      var t := [c] + s;
      assert t[..|t| - 1] == [c] + s[..|s| - 1];
      EscapedCons(c, s[..|s| - 1]);
    } else {
      assert [c] + s == [c];
      assert [c][..0] == [];
    }
  }

  /**
   * The bridge's collapse of "%25" to '%' in an IPv6 endpoint address
   * undoes the escape, for any address whose escaped form fits the
   * address buffer (and whatever text comes before it).
   */
  lemma {:induction false} EscapeCollapses(pre: string, s: string)
    requires |pre + Escaped(s)| <= Resources.MaxAddrStrSize
    ensures Resources.Collapsed(pre + Escaped(s), true, |pre|) == s
    decreases |s|
  {
    var src := pre + Escaped(s);
    if s == [] {
      assert src == pre;
    } else {
      var c, rest := s[0], s[1..];
      assert s == [c] + rest;
      EscapedCons(c, rest);
      var e := EscapeChar(c);
      var pre' := pre + e;
      assert src == pre' + Escaped(rest);
      EscapeCollapses(pre', rest);
      if c == '%' {
        assert src[|pre|] == '%' && src[|pre| + 1] == '2' && src[|pre| + 2] == '5';
        assert Resources.EscapeAt(src, |pre|);
      } else {
        assert src[|pre|] == c;
      }
      assert Resources.Collapsed(src, true, |pre|) == [c] + Resources.Collapsed(src, true, |pre'|);
    }
  }

  datatype DevAddr = DevAddr(ipv6: bool, addr: string, port: nat)

  /** The resource-directory address built from the responder's address: "[host]:port" on IPv6, "host:port" otherwise. */
  function RdAddress(a: DevAddr): string {
    (if a.ipv6 then "[" + Escaped(CPrefix(a.addr)) + "]" else CPrefix(a.addr)) + ":" + NatToDecimal(a.port)
  }

  /** The IPv6 host part is the bracketed escaped address, and collapsing it gives the address back. */
  lemma RdAddressHost(a: DevAddr, host: string)
    requires a.ipv6 && host == CPrefix(a.addr)
    requires |Escaped(host)| <= Resources.MaxAddrStrSize
    ensures var r := RdAddress(a);
            && r[0] == '[' && r[|Escaped(host)| + 1] == ']'
            && Resources.Collapsed(r[1..|Escaped(host)| + 1], true, 0) == host
  {
    var r := RdAddress(a);
    var e := Escaped(host);
    assert r == "[" + e + "]" + ":" + NatToDecimal(a.port);
    assert r[1..|e| + 1] == e;
    EscapeCollapses([], host);
    assert [] + e == e;
  }

  /** The loop of DiscoverResourceDirectoryCB that writes the address into the string stream. */
  method FormatRdAddress(a: DevAddr) returns (s: string)
    ensures s == RdAddress(a)
  {
    if a.ipv6 {
      s := "[";
      var i := 0;
      while i < |a.addr| && a.addr[i] != '\0'
        invariant i <= |a.addr| && '\0' !in a.addr[..i]
        invariant s == "[" + Escaped(a.addr[..i])
        decreases |a.addr| - i
      {
        assert a.addr[..i + 1][..i] == a.addr[..i];
        if a.addr[i] != '%' {
          s := s + [a.addr[i]];
        } else {
          s := s + "%25";
        }
        i := i + 1;
      }
      CPrefixAt(a.addr, i);
      s := s + "]";
    } else {
      s := CPrefix(a.addr);
    }
    s := s + ":" + NatToDecimal(a.port);
  }

  /** Where the first NUL (or the end) is, the C prefix ends. */
  lemma CPrefixAt(s: string, i: nat)
    requires i <= |s| && '\0' !in s[..i] && (i == |s| || s[i] == '\0')
    ensures CPrefix(s) == s[..i]
  {
  }

  datatype Transaction = KeepTransaction | DeleteTransaction
  datatype ResponsePayload = DiscoveryPayload(sid: string) | OtherPayload
  datatype Response = Response(result: int, payload: Option<ResponsePayload>, devAddr: DevAddr)

  /** The response is the discovery answer of the resource directory named by --rd. */
  predicate FromResourceDirectory(response: Option<Response>, rdDi: Option<string>) {
    && response.Some? && response.value.result == Resources.StackOk
    && response.value.payload.Some? && response.value.payload.value.DiscoveryPayload?
    && rdDi.Some? && CPrefix(response.value.payload.value.sid) == CPrefix(rdDi.value)
  }

  /**
   * DiscoverResourceDirectoryCB: the resource-directory answer sets the
   * address and ends the transaction; every other response keeps it open
   * and leaves the address as it was.
   */
  method DiscoverResourceDirectory(response: Option<Response>, rdDi: Option<string>) returns (t: Transaction, address: Option<string>)
    ensures t == DeleteTransaction <==> FromResourceDirectory(response, rdDi)
    ensures address.Some? <==> t == DeleteTransaction
    ensures address.Some? ==> address.value == RdAddress(response.value.devAddr)
  {
    if response.None? || response.value.payload.None? || response.value.result != Resources.StackOk {
      return KeepTransaction, None;
    }
    if !response.value.payload.value.DiscoveryPayload? {
      return KeepTransaction, None;
    }
    if rdDi.Some? && CPrefix(response.value.payload.value.sid) == CPrefix(rdDi.value) {
      var s := FormatRdAddress(response.value.devAddr);
      return DeleteTransaction, Some(s);
    }
    return KeepTransaction, None;
  }
}
