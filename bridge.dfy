// src/bridge.cpp and inc/bridge.h: the bridge's discovery engine.  Every
// OCF discovery response starts a per-device DiscoverContext that walks a
// fixed chain of GET requests (/oic/d, /oic/p, configuration, collections,
// introspection); the HAN-FUN side pages through the concentrator's device
// table; Process drives the timers, presence expiry and deferred tasks.
module Bridge {
  import opened Wrappers
  import opened Rep
  import Resources
  import Interfaces
  import Introspection
  import Presence
  import DeviceInformation
  import Hash
  import Text

  /** Bridge::Protocol. */
  const HfBit: bv8 := 1
  const OcBit: bv8 := 2

  const OcfDiscoverPeriodSecs: int := 5
  const HfDiscoverPeriodSecs: int := 30
  /** How long GetDeviceCB defers a virtual device it has not seen before. */
  const VirtualDelaySecs: int := 10
  /** GetDeviceTableCB's page: the bridge asks for this many devices at a time. */
  const TablePage: nat := 5

  const WellKnownUri: string := "/oic/res"
  const PlatformUri: string := "/oic/p"
  const DeviceConfigurationType: string := "oic.wk.con"
  const PlatformConfigurationType: string := "oic.wk.con.p"
  const IntrospectionType: string := "oic.wk.introspection"
  const HanFunObjectType: string := "oic.r.hanfunobject"
  const PiidName: string := "piid"
  const UrlInfoName: string := "urlInfo"

  /** Bridge::SeenState: what the launcher remembers about a piid. */
  datatype SeenState = NotSeen | SeenNative | SeenVirtual

  // ---------------------------------------------------------------------
  // DiscoverContext::Iterator
  // ---------------------------------------------------------------------

  /** A position of the iterator: a resource and one of its types. */
  datatype Pair = Pair(resource: nat, rtype: nat)

  /** `p` is at or after resource `r`, type `t`, in list order. */
  predicate AtOrAfter(p: Pair, r: nat, t: nat) {
    p.resource > r || (p.resource == r && p.rtype >= t)
  }

  predicate ValidPair(rs: seq<Resources.Resource>, p: Pair) {
    p.resource < |rs| && p.rtype < |rs[p.resource].rts|
  }

  /**
   * Where the iterator may stop: a type that the filter `accept` passes, of
   * a resource that is secure whenever the bridge is in secure mode.  The
   * filter is TranslateResourceType wherever the bridge walks a device.
   */
  predicate Translatable(rs: seq<Resources.Resource>, secure: bool, accept: string -> bool, p: Pair) {
    && ValidPair(rs, p)
    && (!secure || Resources.IsSecure(rs[p.resource]))
    && accept(rs[p.resource].rts[p.rtype])
  }

  /** Iterate: the first translatable pair at or after resource `r`, type `t`; None is End(). */
  function NextFrom(rs: seq<Resources.Resource>, secure: bool, accept: string -> bool, r: nat, t: nat): (q: Option<Pair>)
    ensures q.Some? ==> Translatable(rs, secure, accept, q.value) && AtOrAfter(q.value, r, t)
    decreases |rs| - r, if r < |rs| then |rs[r].rts| - t else 0
  {
    if r >= |rs| then None
    else if t >= |rs[r].rts| then NextFrom(rs, secure, accept, r + 1, 0)
    else if Translatable(rs, secure, accept, Pair(r, t)) then Some(Pair(r, t))
    else NextFrom(rs, secure, accept, r, t + 1)
  }

  /**
   * Iterate skips nothing: for every translatable pair at or after the
   * start it stops, and no later than that pair.  So End() means there is
   * no translatable pair left.
   */
  lemma {:induction false} NextFromIsFirst(rs: seq<Resources.Resource>, secure: bool, accept: string -> bool, r: nat, t: nat, p: Pair)
    requires Translatable(rs, secure, accept, p) && AtOrAfter(p, r, t)
    ensures NextFrom(rs, secure, accept, r, t).Some?
    ensures AtOrAfter(p, NextFrom(rs, secure, accept, r, t).value.resource, NextFrom(rs, secure, accept, r, t).value.rtype)
    decreases |rs| - r, if r < |rs| then |rs[r].rts| - t else 0
  {
    if t >= |rs[r].rts| {
      NextFromIsFirst(rs, secure, accept, r + 1, 0, p);
    } else if !Translatable(rs, secure, accept, Pair(r, t)) {
      assert p != Pair(r, t);
      NextFromIsFirst(rs, secure, accept, r, t + 1, p);
    }
  }

  /** Every pair the iterator visits from resource `r`, type `t` on, in order. */
  function PairsFrom(rs: seq<Resources.Resource>, secure: bool, accept: string -> bool, r: nat, t: nat): (ps: seq<Pair>)
    ensures forall i :: 0 <= i < |ps| ==> Translatable(rs, secure, accept, ps[i]) && AtOrAfter(ps[i], r, t)
    decreases |rs| - r, if r < |rs| then |rs[r].rts| - t else 0
  {
    if r >= |rs| then []
    else if t >= |rs[r].rts| then PairsFrom(rs, secure, accept, r + 1, 0)
    else (if Translatable(rs, secure, accept, Pair(r, t)) then [Pair(r, t)] else []) + PairsFrom(rs, secure, accept, r, t + 1)
  }

  /** At End() no pair is left to visit. */
  lemma {:induction false} EndLeavesNoPairs(rs: seq<Resources.Resource>, secure: bool, accept: string -> bool, r: nat, t: nat)
    requires NextFrom(rs, secure, accept, r, t).None?
    ensures PairsFrom(rs, secure, accept, r, t) == []
    decreases |rs| - r, if r < |rs| then |rs[r].rts| - t else 0
  {
    if r < |rs| {
      if t >= |rs[r].rts| {
        EndLeavesNoPairs(rs, secure, accept, r + 1, 0);
      } else {
        EndLeavesNoPairs(rs, secure, accept, r, t + 1);
      }
    }
  }

  /**
   * The loop `for (it = Begin(); it != End(); ++it)` visits exactly
   * PairsFrom: where Iterate stops is the first of them, and one step on
   * from it (`++it`) leaves the rest.
   */
  lemma {:induction false} IteratorVisitsPairs(rs: seq<Resources.Resource>, secure: bool, accept: string -> bool, r: nat, t: nat, p: Pair)
    requires NextFrom(rs, secure, accept, r, t) == Some(p)
    ensures PairsFrom(rs, secure, accept, r, t) == [p] + PairsFrom(rs, secure, accept, p.resource, p.rtype + 1)
    decreases |rs| - r, if r < |rs| then |rs[r].rts| - t else 0
  {
    var rest := PairsFrom(rs, secure, accept, p.resource, p.rtype + 1);
    if t >= |rs[r].rts| {
      IteratorVisitsPairs(rs, secure, accept, r + 1, 0, p);
      assert PairsFrom(rs, secure, accept, r, t) == PairsFrom(rs, secure, accept, r + 1, 0);
    } else if !Translatable(rs, secure, accept, Pair(r, t)) {
      IteratorVisitsPairs(rs, secure, accept, r, t + 1, p);
      assert PairsFrom(rs, secure, accept, r, t) == [] + PairsFrom(rs, secure, accept, r, t + 1);
    } else {
      assert p == Pair(r, t);
      assert PairsFrom(rs, secure, accept, r, t) == [p] + rest;
    }
  }

  /** In secure mode an insecure resource contributes no pair, whatever type the walk starts at. */
  lemma {:induction false} InsecureSkipped(rs: seq<Resources.Resource>, secure: bool, accept: string -> bool, r: nat, t: nat)
    requires r < |rs| && secure && !Resources.IsSecure(rs[r])
    ensures PairsFrom(rs, secure, accept, r, t) == PairsFrom(rs, secure, accept, r + 1, 0)
    ensures NextFrom(rs, secure, accept, r, t) == NextFrom(rs, secure, accept, r + 1, 0)
    decreases |rs[r].rts| - t
  {
    if t < |rs[r].rts| {
      InsecureSkipped(rs, secure, accept, r, t + 1);
    }
  }

  /** Iterator::GetUri: the resource's URI, with "?rt=<type>" when it has more than one type. */
  function PairUri(rs: seq<Resources.Resource>, p: Pair): (u: string)
    requires ValidPair(rs, p)
    ensures |rs[p.resource].rts| <= 1 ==> u == rs[p.resource].uri
    ensures |rs[p.resource].rts| > 1 ==> u == rs[p.resource].uri + "?rt=" + rs[p.resource].rts[p.rtype]
  {
    var res := rs[p.resource];
    if |res.rts| > 1 then res.uri + ("?rt=" + res.rts[p.rtype]) else res.uri
  }

  // ---------------------------------------------------------------------
  // The per-device context and the stage chain
  // ---------------------------------------------------------------------

  /** The response handlers a request can be issued with. */
  datatype Callback =
    | OnDiscover | OnDevice | OnPlatform | OnDeviceConfiguration | OnPlatformConfiguration
    | OnCollection | OnIntrospection | OnIntrospectionData | OnGet

  /**
   * Bridge::DiscoverContext. `ident` stands for the object's address (two
   * handles hold the same context exactly when they hold the same ident);
   * `rit` is the collection iterator as an index and `it` the
   * translatable-pair iterator, None at End().
   */
  datatype Context = Context(ident: nat, device: Resources.Device, paths: Payload, definitions: Payload,
                             rit: nat, it: Option<Pair>)

  /** The next request for a context, or none because the inference walk has no pair to start at. */
  datatype Fetch = Fetch(context: Context, uri: string, addrs: seq<Resources.DevAddr>, cb: Callback) | NoFetch

  /** What a context must hold when a response reaches the callback its request names. */
  predicate Ready(cb: Callback, c: Context) {
    match cb
    case OnCollection => c.rit < |c.device.resources|
    case OnGet => c.it.Some? && ValidPair(c.device.resources, c.it.value)
    case _ => true
  }

  /** A fetch goes on with the context `ident`, ready for the callback it names. */
  predicate GoesOn(f: Fetch, ident: nat) {
    f.Fetch? ==> f.context.ident == ident && Ready(f.cb, f.context)
  }

  /** DiscoverContext::GetDevAddrs: the addresses of the first resource at `uri`, else none. */
  function AddrsOf(d: Resources.Device, uri: string): seq<Resources.DevAddr> {
    match Resources.GetResourceUri(d, uri)
    case Some(k) => d.resources[k].addrs
    case None => []
  }

  /** The first resource at or after `i` carrying oic.r.hanfunobject. */
  function CollectionFrom(rs: seq<Resources.Resource>, i: nat): (k: Option<nat>)
    ensures k.Some? ==> i <= k.value < |rs| && HanFunObjectType in rs[k.value].rts
    ensures forall j :: i <= j < |rs| && (k.None? || j < k.value) ==> HanFunObjectType !in rs[j].rts
    decreases |rs| - i
  {
    if i >= |rs| then None
    else if Resources.HasResourceType(rs[i].rts, HanFunObjectType) then Some(i)
    else CollectionFrom(rs, i + 1)
  }

  /** The inference fallback: fresh paths and definitions, and a GET of the first translatable pair. */
  function InferenceStage(c: Context, secure: bool): (f: Fetch)
    ensures GoesOn(f, c.ident)
  {
    var rs := c.device.resources;
    match NextFrom(rs, secure, Interfaces.TranslateResourceType, 0, 0)
    case None => NoFetch
    case Some(p) => Fetch(c.(paths := Empty, definitions := Empty, it := Some(p)), PairUri(rs, p), rs[p.resource].addrs, OnGet)
  }

  /** GetIntrospection: the first introspection resource, else inference. */
  function IntrospectionStage(c: Context, secure: bool): (f: Fetch)
    ensures GoesOn(f, c.ident)
  {
    match Resources.GetResourceType(c.device, IntrospectionType)
    case Some(k) => Fetch(c, c.device.resources[k].uri, c.device.resources[k].addrs, OnIntrospection)
    case None => InferenceStage(c, secure)
  }

  /** GetCollection's loop from `i`: the next oic.r.hanfunobject resource, else introspection. */
  function CollectionStage(c: Context, i: nat, secure: bool): (f: Fetch)
    ensures GoesOn(f, c.ident)
  {
    var rs := c.device.resources;
    match CollectionFrom(rs, i)
    case Some(k) => Fetch(c.(rit := k), rs[k].uri, rs[k].addrs, OnCollection)
    case None => IntrospectionStage(c.(rit := |rs|), secure)
  }

  /** GetPlatformConfiguration: the first platform-configuration resource, else the collections. */
  function PlatformConfigurationStage(c: Context, secure: bool): (f: Fetch)
    ensures GoesOn(f, c.ident)
  {
    match Resources.GetResourceType(c.device, PlatformConfigurationType)
    case Some(k) => Fetch(c, c.device.resources[k].uri, c.device.resources[k].addrs, OnPlatformConfiguration)
    case None => CollectionStage(c, 0, secure)
  }

  /** GetPlatformCB's choice: the first device-configuration resource, else platform configuration. */
  function ConfigurationStage(c: Context, secure: bool): (f: Fetch)
    ensures GoesOn(f, c.ident)
  {
    match Resources.GetResourceType(c.device, DeviceConfigurationType)
    case Some(k) => Fetch(c, c.device.resources[k].uri, c.device.resources[k].addrs, OnDeviceConfiguration)
    case None => PlatformConfigurationStage(c, secure)
  }

  predicate HasType(d: Resources.Device, rt: string) {
    exists k :: 0 <= k < |d.resources| && rt in d.resources[k].rts
  }

  /**
   * The stages after /oic/p come in a fixed order, each skipped exactly
   * when its find-first lookup finds nothing: device configuration,
   * platform configuration, the first oic.r.hanfunobject resource,
   * introspection, and last the inference walk.
   */
  lemma StageOrder(c: Context, secure: bool)
    ensures var f := ConfigurationStage(c, secure);
            var d := c.device;
            && (HasType(d, DeviceConfigurationType) ==> f.Fetch? && f.cb == OnDeviceConfiguration)
            && (!HasType(d, DeviceConfigurationType) && HasType(d, PlatformConfigurationType)
                ==> f.Fetch? && f.cb == OnPlatformConfiguration)
            && (!HasType(d, DeviceConfigurationType) && !HasType(d, PlatformConfigurationType)
                ==> f == CollectionStage(c, 0, secure))
  {
  }

  /** A collection stage fetches the first hanfunobject resource from `i`, else moves on to introspection or inference. */
  lemma CollectionThenIntrospection(c: Context, i: nat, secure: bool)
    ensures var f := CollectionStage(c, i, secure);
            var rs := c.device.resources;
            && ((exists j :: i <= j < |rs| && HanFunObjectType in rs[j].rts) ==>
                  f.Fetch? && f.cb == OnCollection && i <= f.context.rit < |rs|
                  && HanFunObjectType in rs[f.context.rit].rts && f.uri == rs[f.context.rit].uri
                  && forall j :: i <= j < f.context.rit ==> HanFunObjectType !in rs[j].rts)
            && ((forall j :: i <= j < |rs| ==> HanFunObjectType !in rs[j].rts) && HasType(c.device, IntrospectionType)
                ==> f.Fetch? && f.cb == OnIntrospection)
            && ((forall j :: i <= j < |rs| ==> HanFunObjectType !in rs[j].rts) && !HasType(c.device, IntrospectionType)
                ==> f == InferenceStage(c.(rit := |rs|), secure))
  {
    var rs := c.device.resources;
    if exists j :: i <= j < |rs| && HanFunObjectType in rs[j].rts {
      var j :| i <= j < |rs| && HanFunObjectType in rs[j].rts;
      assert CollectionFrom(rs, i).Some?;
    }
  }

  /** Inference starts at the first translatable pair with empty paths and definitions; it has no start only when there is no pair at all. */
  lemma InferenceStart(c: Context, secure: bool)
    ensures var f := InferenceStage(c, secure);
            var rs := c.device.resources;
            var accept := Interfaces.TranslateResourceType;
            && (f.NoFetch? <==> forall p :: !Translatable(rs, secure, accept, p))
            && (f.Fetch? ==> (f.cb == OnGet && f.context.paths == Empty && f.context.definitions == Empty
                              && f.context.it.Some? && Translatable(rs, secure, accept, f.context.it.value)
                              && f.uri == PairUri(rs, f.context.it.value)
                              && forall p :: Translatable(rs, secure, accept, p) ==>
                                   AtOrAfter(p, f.context.it.value.resource, f.context.it.value.rtype)))
  {
    var rs := c.device.resources;
    var accept := Interfaces.TranslateResourceType;
    var q := NextFrom(rs, secure, accept, 0, 0);
    if q.None? {
      forall p ensures !Translatable(rs, secure, accept, p) {
        if Translatable(rs, secure, accept, p) {
          NextFromIsFirst(rs, secure, accept, 0, 0, p);
        }
      }
    } else {
      forall p | Translatable(rs, secure, accept, p)
        ensures AtOrAfter(p, q.value.resource, q.value.rtype)
      {
        NextFromIsFirst(rs, secure, accept, 0, 0, p);
      }
    }
  }

  // ---------------------------------------------------------------------
  // GetCollectionCB's iterator across SetCollectionLinks
  // ---------------------------------------------------------------------

  /**
   * As written: `++context->rit` steps from the collection's index before
   * SetCollectionLinks erased the moved resources from the same vector.
   * An index at or past the end reads as the end.
   */
  function ResumeAsWritten(rit: nat): nat {
    rit + 1
  }

  /** Evidently meant: one past where the collection is after its links moved. */
  function Resume(after: seq<Resources.Resource>, collectionUri: string): (i: nat)
    ensures Resources.FindResourceFromUri(after, collectionUri) < |after| ==>
              0 < i <= |after| && after[i - 1].uri == collectionUri
              && forall j :: 0 <= j < i - 1 ==> after[j].uri != collectionUri
  {
    Resources.FindResourceFromUri(after, collectionUri) + 1
  }

  function Link(href: string): Payload {
    Set(Empty, "href", Str(href))
  }

  function Plain(uri: string, rts: seq<string>): Resources.Resource {
    Resources.Resource(uri, [], rts, false, [], [])
  }

  /** A resource listed before two collections, the first of which links to it. */
  const ShiftBefore: seq<Resources.Resource> :=
    [Plain("/a", ["x"]), Plain("/c", [HanFunObjectType]), Plain("/b", [HanFunObjectType])]
  /** A resource listed before the last collection, which links to it. */
  const OverrunBefore: seq<Resources.Resource> := [Plain("/a", ["x"]), Plain("/c", [HanFunObjectType])]

  /** Linking "/a" into "/c" when "/a" is first and "/c" second. */
  lemma {:induction false} LinkFirstIntoSecond(before: seq<Resources.Resource>)
    requires |before| >= 2 && before[0] == Plain("/a", ["x"]) && before[1] == Plain("/c", [HanFunObjectType])
    ensures Resources.FindResourceFromUri(before, "/c") == 1
    ensures Resources.MoveLinks(before, "/c", [Link("/a")])
            == Resources.Linked([before[1].(resources := [before[0]])] + before[2..])
  {
    assert Resources.LinkHref(Link("/a")) == Some("/a") by {
      assert GetString(Link("/a"), "href") == Some("/a");
    }
    assert Resources.FindResourceFromUri(before, "/a") == 0;
    assert Resources.FindResourceFromUri(before, "/c") == 1 by {
      assert before[0].uri != "/c" by { assert before[0].uri[1] != "/c"[1]; }
    }
    var moved := Resources.MoveOne(before, "/c", 0);
    var upd := before[1 := before[1].(resources := before[1].resources + [before[0]])];
    assert moved == upd[1..];
    assert before[1].resources + [before[0]] == [before[0]];
    assert upd[1..] == [upd[1]] + upd[2..];
    assert upd[2..] == before[2..];
    assert Resources.FindResourceFromUri(moved, "/c") == 0 by {
      assert moved[0].uri == "/c";
    }
    assert [Link("/a")][1..] == [];
  }

  /**
   * A link to a resource listed before the collection shifts the collection
   * down by one: resuming at the old index plus one misses the next
   * hanfunobject resource that resuming after the collection finds.
   */
  lemma StaleIteratorSkipsAsWritten()
    ensures Resources.FindResourceFromUri(ShiftBefore, "/c") == 1
    ensures var o := Resources.MoveLinks(ShiftBefore, "/c", [Link("/a")]);
            && o.Linked?
            && o.resources == [Plain("/c", [HanFunObjectType]).(resources := [Plain("/a", ["x"])]), Plain("/b", [HanFunObjectType])]
            && CollectionFrom(o.resources, ResumeAsWritten(1)).None?
            && CollectionFrom(o.resources, Resume(o.resources, "/c")) == Some(1)
  {
    LinkFirstIntoSecond(ShiftBefore);
    var after := [Plain("/c", [HanFunObjectType]).(resources := [Plain("/a", ["x"])]), Plain("/b", [HanFunObjectType])];
    assert [ShiftBefore[1].(resources := [ShiftBefore[0]])] + ShiftBefore[2..] == after;
    assert Resources.FindResourceFromUri(after, "/c") == 0;
  }

  /** When the collection was last and a link moved an earlier resource, the as-written step lands past the end. */
  lemma StaleIteratorOverrunsAsWritten()
    ensures Resources.FindResourceFromUri(OverrunBefore, "/c") == 1
    ensures var o := Resources.MoveLinks(OverrunBefore, "/c", [Link("/a")]);
            o.Linked? && |o.resources| == 1 && ResumeAsWritten(1) > |o.resources|
  {
    LinkFirstIntoSecond(OverrunBefore);
  }

  /** Resuming after the collection's new position skips no hanfunobject resource that follows it. */
  lemma ResumeSkipsNothing(after: seq<Resources.Resource>, collectionUri: string)
    requires Resources.FindResourceFromUri(after, collectionUri) < |after|
    ensures var c := Resources.FindResourceFromUri(after, collectionUri);
            var k := CollectionFrom(after, Resume(after, collectionUri));
            && (k.Some? ==> c < k.value && forall j :: c < j < k.value ==> HanFunObjectType !in after[j].rts)
            && (k.None? ==> forall j :: c < j < |after| ==> HanFunObjectType !in after[j].rts)
  {
  }

  // ---------------------------------------------------------------------
  // Discovery payloads
  // ---------------------------------------------------------------------

  /** Bridge::IsSecure on a discovered resource: its secure flag, or an endpoint with OC_SECURE. */
  predicate PayloadIsSecure(rp: Resources.ResourcePayload) {
    rp.secure || exists k :: 0 <= k < |rp.eps| && Resources.HasFlag(rp.eps[k].family, Resources.FlagSecure)
  }

  /** What HasTranslatableResource looks for, `accept` standing for TranslateResourceType: a resource passing the secure-mode test with an accepted type. */
  predicate OffersTranslatable(p: Resources.DiscoveryPayload, secure: bool, accept: string -> bool) {
    exists i :: 0 <= i < |p.resources| && (!secure || PayloadIsSecure(p.resources[i])) && AcceptsAny(p.resources[i].types, accept)
  }

  /** Whether `accept` takes one of `types`. */
  predicate AcceptsAny(types: seq<string>, accept: string -> bool) {
    exists b :: 0 <= b < |types| && accept(types[b])
  }

  // ---------------------------------------------------------------------
  // Requests, responses and what the bridge tells the world
  // ---------------------------------------------------------------------

  datatype Verb = Discover | Get

  /** One DoResource call: the request as issued, whatever the stack answered. */
  datatype Request = Request(verb: Verb, uri: string, addrs: seq<Resources.DevAddr>, cb: Callback)

  /** An OCClientResponse's payload: a representation chain, discovery payloads, or another type. */
  datatype Body =
    | Representation(rep: Payload, next: seq<Payload>)
    | Discovery(payloads: seq<Resources.DiscoveryPayload>)
    | OtherBody

  datatype Response = Response(result: int, body: Option<Body>, devAddr: Resources.DevAddr)

  /** GetContextAndRepPayload's payload: present only for an OK response carrying a representation. */
  function RepPayload(response: Option<Response>): (p: Option<Payload>)
    ensures p.Some? <==> response.Some? && response.value.result == Resources.StackOk
                         && response.value.body.Some? && response.value.body.value.Representation?
  {
    if response.Some? && response.value.result == Resources.StackOk
       && response.value.body.Some? && response.value.body.value.Representation?
    then Some(response.value.body.value.rep) else None
  }

  /** Calls out of the bridge other than OCF requests. */
  datatype Event =
    | Exec(piid: string, sender: nat, secureMode: bool, isVirtual: bool)
    | Kill(piid: string)
    | DeviceTableRequested(start: nat, count: nat)
    | Cancelled(handle: nat)
    | Published(introspection: Introspection.Encoding)

  /** Bridge::Task: a deferred discovery step or the pending RD publication. */
  datatype Task = DiscoverTask(tick: int, piid: string, context: Context) | RDPublishTask(tick: int)

  datatype HanState = Created | Started | Running

  /** A VirtualOcfDevice for a HAN-FUN address; `live` is false once it has been deleted. */
  datatype VirtualDevice = VirtualDevice(address: nat, live: bool)

  /** One row of the device table as GetDeviceTableCB receives it; a missing IPUI or EMC is a NULL pointer. */
  datatype DeviceRecord = DeviceRecord(id: nat, ipui: Option<seq<Hash.byte>>, emc: Option<seq<Hash.byte>>)

  predicate WellFormed(e: DeviceRecord) {
    && e.id < 65536
    && (e.ipui.Some? ==> |e.ipui.value| == 5)
    && (e.emc.Some? ==> |e.emc.value| == 2)
  }

  // ---------------------------------------------------------------------
  // The pending table across ContinueDiscovery
  // ---------------------------------------------------------------------

  /** discovered_ and the requests issued so far: a handle is the index of its request. */
  datatype Pending = Pending(discovered: map<nat, Context>, requests: seq<Request>)

  /** After a run of ContinueDiscovery attempts: the table, and which fetch the stack accepted. */
  datatype Tried = Tried(pending: Pending, accepted: Option<nat>)

  /** The GET requests ContinueDiscovery issues for `fs`, in order; NoFetch issues none. */
  function RequestsOf(fs: seq<Fetch>): seq<Request>
    decreases |fs|
  {
    if |fs| == 0 then []
    else (match fs[0]
          case NoFetch => []
          case Fetch(_, uri, addrs, cb) => [Request(Get, uri, addrs, cb)]) + RequestsOf(fs[1..])
  }

  /**
   * ContinueDiscovery on each fetch in turn until the stack accepts one
   * (`stack(n)` is its answer to the n-th request).  Only the accepted one
   * keys its context, under the handle of its request.
   */
  function Try(st: Pending, fs: seq<Fetch>, stack: nat -> int): (r: Tried)
    ensures r.accepted.Some? ==> r.accepted.value < |fs| && fs[r.accepted.value].Fetch?
    decreases |fs|
  {
    if |fs| == 0 then Tried(st, None)
    else match fs[0]
      case NoFetch => Later(Try(st, fs[1..], stack))
      case Fetch(c, uri, addrs, cb) =>
        var n := |st.requests|;
        var reqs := st.requests + [Request(Get, uri, addrs, cb)];
        if stack(n) == Resources.StackOk then Tried(Pending(st.discovered[n := c], reqs), Some(0))
        else Later(Try(Pending(st.discovered, reqs), fs[1..], stack))
  }

  function Later(t: Tried): Tried {
    match t.accepted
    case None => t
    case Some(k) => t.(accepted := Some(k + 1))
  }

  /** When the stack accepts none of the fetches, Try issues all their requests, in order, and keys nothing. */
  lemma {:induction false} TryDeclined(st: Pending, fs: seq<Fetch>, stack: nat -> int)
    requires Try(st, fs, stack).accepted.None?
    ensures Try(st, fs, stack).pending == Pending(st.discovered, st.requests + RequestsOf(fs))
    ensures forall m :: |st.requests| <= m < |st.requests| + |RequestsOf(fs)| ==> stack(m) != Resources.StackOk
    decreases |fs|
  {
    if |fs| > 0 {
      var t: Tried;
      match fs[0]
      case NoFetch =>
        t := Try(st, fs[1..], stack);
        TryDeclined(st, fs[1..], stack);
        assert RequestsOf(fs) == RequestsOf(fs[1..]);
      case Fetch(c, uri, addrs, cb) =>
        var n := |st.requests|;
        var req := Request(Get, uri, addrs, cb);
        var st' := Pending(st.discovered, st.requests + [req]);
        assert stack(n) != Resources.StackOk;
        t := Try(st', fs[1..], stack);
        assert Try(st, fs, stack) == Later(t);
        TryDeclined(st', fs[1..], stack);
        assert RequestsOf(fs) == [req] + RequestsOf(fs[1..]);
        assert st'.requests + RequestsOf(fs[1..]) == st.requests + RequestsOf(fs);
    }
  }

  /**
   * When the stack accepts a fetch, Try has issued the requests up to and
   * including its own, and only the accepted fetch's context is keyed,
   * under the handle of its request.
   */
  lemma {:induction false} TryAccepted(st: Pending, fs: seq<Fetch>, stack: nat -> int, r: Tried)
    requires r == Try(st, fs, stack) && r.accepted.Some?
    ensures r.accepted.value < |fs| && fs[r.accepted.value].Fetch?
    ensures |st.requests| < |r.pending.requests|
    ensures r.pending.requests[..|st.requests|] == st.requests
    ensures var f := fs[r.accepted.value];
            r.pending.requests[|r.pending.requests| - 1] == Request(Get, f.uri, f.addrs, f.cb)
    ensures r.pending.discovered == st.discovered[|r.pending.requests| - 1 := fs[r.accepted.value].context]
    decreases |fs|
  {
    var n := |st.requests|;
    match fs[0]
    case NoFetch =>
      var t := Try(st, fs[1..], stack);
      assert r == Later(t);
      TryAccepted(st, fs[1..], stack, t);
      assert fs[r.accepted.value] == fs[1..][t.accepted.value];
    case Fetch(c, uri, addrs, cb) =>
      var req := Request(Get, uri, addrs, cb);
      if stack(n) != Resources.StackOk {
        var st' := Pending(st.discovered, st.requests + [req]);
        var t := Try(st', fs[1..], stack);
        assert r == Later(t);
        TryAccepted(st', fs[1..], stack, t);
        assert fs[r.accepted.value] == fs[1..][t.accepted.value];
        assert t.pending.requests[..n] == t.pending.requests[..n + 1][..n];
      }
  }

  /** The stack accepted the request of the fetch Try stopped at, and declined every request Try issued before it. */
  lemma {:induction false} TryAcceptedStack(st: Pending, fs: seq<Fetch>, stack: nat -> int)
    requires Try(st, fs, stack).accepted.Some?
    ensures var r := Try(st, fs, stack);
            && |st.requests| < |r.pending.requests|
            && stack(|r.pending.requests| - 1) == Resources.StackOk
            && forall m :: |st.requests| <= m < |r.pending.requests| - 1 ==> stack(m) != Resources.StackOk
    decreases |fs|
  {
    var r := Try(st, fs, stack);
    var n := |st.requests|;
    match fs[0]
    case NoFetch =>
      assert r == Later(Try(st, fs[1..], stack));
      TryAcceptedStack(st, fs[1..], stack);
    case Fetch(c, uri, addrs, cb) =>
      if stack(n) != Resources.StackOk {
        var st' := Pending(st.discovered, st.requests + [Request(Get, uri, addrs, cb)]);
        var t := Try(st', fs[1..], stack);
        assert r == Later(t);
        TryAcceptedStack(st', fs[1..], stack);
      }
  }

  /** The requests Try issues before the stack accepts one: those of the fetches up to the accepted one, in order. */
  lemma {:induction false} TryAcceptedIssues(st: Pending, fs: seq<Fetch>, stack: nat -> int)
    requires Try(st, fs, stack).accepted.Some?
    ensures var r := Try(st, fs, stack);
            r.pending.requests == st.requests + RequestsOf(fs[..r.accepted.value + 1])
    decreases |fs|
  {
    var r := Try(st, fs, stack);
    var n := |st.requests|;
    match fs[0]
    case NoFetch =>
      var t := Try(st, fs[1..], stack);
      assert r == Later(t);
      TryAcceptedIssues(st, fs[1..], stack);
      var k := t.accepted.value;
      assert fs[..k + 2] == [fs[0]] + fs[1..][..k + 1];
      assert RequestsOf(fs[..k + 2]) == RequestsOf(fs[1..][..k + 1]);
    case Fetch(c, uri, addrs, cb) =>
      var req := Request(Get, uri, addrs, cb);
      if stack(n) == Resources.StackOk {
        assert fs[..1] == [fs[0]];
        assert RequestsOf(fs[..1]) == [req] + RequestsOf([]);
      } else {
        var st' := Pending(st.discovered, st.requests + [req]);
        var t := Try(st', fs[1..], stack);
        assert r == Later(t);
        TryAcceptedIssues(st', fs[1..], stack);
        var k := t.accepted.value;
        assert fs[..k + 2] == [fs[0]] + fs[1..][..k + 1];
        assert RequestsOf(fs[..k + 2]) == [req] + RequestsOf(fs[1..][..k + 1]);
        assert st'.requests + RequestsOf(fs[1..][..k + 1]) == st.requests + RequestsOf(fs[..k + 2]);
      }
  }

  /** Erasing a completed handle. */
  function Complete(st: Pending, handle: nat): Pending {
    st.(discovered := st.discovered - {handle})
  }

  predicate InFlight(disc: map<nat, Context>, ident: nat) {
    exists h :: h in disc && disc[h].ident == ident
  }

  /**
   * The pending table is sound: every handle names an issued request, every
   * context was created before, is ready for its request's callback, and is
   * keyed under one handle only.
   */
  ghost predicate PendingValid(disc: map<nat, Context>, reqs: seq<Request>, nextIdent: nat) {
    && (forall h :: h in disc ==> h < |reqs| && disc[h].ident < nextIdent && Ready(reqs[h].cb, disc[h]))
    && (forall h1, h2 :: h1 in disc && h2 in disc && disc[h1].ident == disc[h2].ident ==> h1 == h2)
  }

  /** Every fetch of `fs` goes on with the context `ident`. */
  predicate AllGoOn(fs: seq<Fetch>, ident: nat) {
    forall k :: 0 <= k < |fs| ==> GoesOn(fs[k], ident)
  }

  /**
   * Every completion erases its own handle, and its context survives only
   * re-keyed under the handle of a request the stack accepted: the table
   * stays sound, and no context comes into flight that was not before.
   */
  lemma CompletionKeepsPending(st: Pending, fs: seq<Fetch>, stack: nat -> int, handle: nat, nextIdent: nat)
    requires PendingValid(st.discovered, st.requests, nextIdent)
    requires handle in st.discovered && AllGoOn(fs, st.discovered[handle].ident)
    ensures var out := Complete(Try(st, fs, stack).pending, handle);
            && handle !in out.discovered
            && PendingValid(out.discovered, out.requests, nextIdent)
            && (forall i :: InFlight(out.discovered, i) ==> InFlight(st.discovered, i))
            && (InFlight(out.discovered, st.discovered[handle].ident) <==> Try(st, fs, stack).accepted.Some?)
  {
    if Try(st, fs, stack).accepted.Some? {
      var r := Try(st, fs, stack);
      TryAccepted(st, fs, stack, r);
      AcceptedKeepsPending(st, fs, handle, nextIdent, r);
    } else {
      TryDeclined(st, fs, stack);
      var out := Complete(Try(st, fs, stack).pending, handle);
      assert out.requests[..|st.requests|] == st.requests;
      DropKeepsPending(st.discovered, out.discovered, st.requests, out.requests, nextIdent);
    }
  }

  /** The accepted case of CompletionKeepsPending, `r` being what Try returns. */
  lemma AcceptedKeepsPending(st: Pending, fs: seq<Fetch>, handle: nat, nextIdent: nat, r: Tried)
    requires PendingValid(st.discovered, st.requests, nextIdent)
    requires handle in st.discovered && AllGoOn(fs, st.discovered[handle].ident)
    requires r.accepted.Some? && r.accepted.value < |fs| && fs[r.accepted.value].Fetch?
    requires |st.requests| < |r.pending.requests| && r.pending.requests[..|st.requests|] == st.requests
    requires var f := fs[r.accepted.value];
             r.pending.requests[|r.pending.requests| - 1] == Request(Get, f.uri, f.addrs, f.cb)
    requires r.pending.discovered == st.discovered[|r.pending.requests| - 1 := fs[r.accepted.value].context]
    ensures ReKeyed(st.discovered, Complete(r.pending, handle), handle, nextIdent)
  {
    var f := fs[r.accepted.value];
    assert GoesOn(f, st.discovered[handle].ident);
    RekeyKeepsPending(st.discovered, st.requests, r.pending, handle, f, nextIdent);
  }

  /**
   * After a completion whose context went on: `handle` is erased, the table
   * is sound, and the only contexts in flight are those that were, the
   * completed one among them.
   */
  ghost predicate ReKeyed(disc: map<nat, Context>, out: Pending, handle: nat, nextIdent: nat)
    requires handle in disc
  {
    && handle !in out.discovered
    && PendingValid(out.discovered, out.requests, nextIdent)
    && (forall i :: InFlight(out.discovered, i) ==> InFlight(disc, i))
    && InFlight(out.discovered, disc[handle].ident)
  }

  /**
   * Keying the context of a fetch that carries on from `handle`'s under the handle of its
   * request, issued last, then erasing `handle`, keeps the table sound and
   * brings no new context into flight.
   */
  lemma RekeyKeepsPending(disc: map<nat, Context>, reqs: seq<Request>, after: Pending,
                          handle: nat, f: Fetch, nextIdent: nat)
    requires PendingValid(disc, reqs, nextIdent)
    requires handle in disc
    requires |reqs| < |after.requests| && after.requests[..|reqs|] == reqs
    requires f.Fetch? && after.requests[|after.requests| - 1] == Request(Get, f.uri, f.addrs, f.cb)
    requires GoesOn(f, disc[handle].ident)
    requires after.discovered == disc[|after.requests| - 1 := f.context]
    ensures ReKeyed(disc, Complete(after, handle), handle, nextIdent)
  {
    var reqs' := after.requests;
    var d := after.discovered - {handle};
    var c := f.context;
    var n := |reqs|;
    var h := |reqs'| - 1;
    assert handle < n <= h;
    assert h in d && d[h] == c;
    forall x | x in d && x != h
      ensures x in disc && d[x] == disc[x] && x < n && reqs'[x] == reqs[x]
    {
      assert reqs'[..n][x] == reqs[x];
    }
    forall x | x in d ensures x < |reqs'| && d[x].ident < nextIdent && Ready(reqs'[x].cb, d[x]) {
      if x != h {
        assert Ready(reqs[x].cb, disc[x]);
      }
    }
    forall x, y | x in d && y in d && d[x].ident == d[y].ident ensures x == y {
      if x != h && y != h {
        assert disc[x].ident == disc[y].ident;
      }
    }
    forall i | InFlight(d, i) ensures InFlight(disc, i) {
      var x :| x in d && d[x].ident == i;
      if x == h {
        assert disc[handle].ident == i;
      }
    }
  }

  /** A fresh context's fetch keeps the table sound; only that context comes into flight. */
  lemma FreshKeepsPending(st: Pending, fs: seq<Fetch>, stack: nat -> int, ident: nat, nextIdent: nat)
    requires PendingValid(st.discovered, st.requests, nextIdent)
    requires ident < nextIdent && !InFlight(st.discovered, ident) && AllGoOn(fs, ident)
    ensures var out := Try(st, fs, stack).pending;
            && PendingValid(out.discovered, out.requests, nextIdent)
            && (forall i :: InFlight(out.discovered, i) ==> InFlight(st.discovered, i) || i == ident)
  {
    var r := Try(st, fs, stack);
    if r.accepted.Some? { TryAccepted(st, fs, stack, r); } else { TryDeclined(st, fs, stack); }
    var n := |st.requests|;
    assert r.pending.requests[..n] == st.requests;
    if r.accepted.Some? {
      assert GoesOn(fs[r.accepted.value], ident);
    }
  }

  /** Dropping entries from a sound table, and issuing more requests, keeps it sound. */
  lemma DropKeepsPending(disc: map<nat, Context>, smaller: map<nat, Context>, reqs: seq<Request>, reqs': seq<Request>, nextIdent: nat)
    requires PendingValid(disc, reqs, nextIdent)
    requires forall h :: h in smaller ==> h in disc && smaller[h] == disc[h]
    requires |reqs| <= |reqs'| && reqs'[..|reqs|] == reqs
    ensures PendingValid(smaller, reqs', nextIdent)
    ensures forall i :: InFlight(smaller, i) ==> InFlight(disc, i)
  {
    forall h | h in smaller ensures reqs'[h] == reqs[h] {
      assert reqs'[..|reqs|][h] == reqs[h];
    }
  }

  /**
   * The tasks are sound: a deferred context was created before, is not in
   * flight and is held by one task only; the RD publication pointer is set
   * exactly when one RDPublishTask is queued, and there is never a second.
   */
  ghost predicate TasksValid(tasks: seq<Task>, disc: map<nat, Context>, nextIdent: nat, rdPending: bool) {
    && (forall i :: 0 <= i < |tasks| && tasks[i].DiscoverTask? ==>
          tasks[i].context.ident < nextIdent && !InFlight(disc, tasks[i].context.ident))
    && (forall i, j ::
          0 <= i < |tasks| && 0 <= j < |tasks| && tasks[i].DiscoverTask? && tasks[j].DiscoverTask?
          && tasks[i].context.ident == tasks[j].context.ident
          ==> i == j)
    && (rdPending <==> exists i :: 0 <= i < |tasks| && tasks[i].RDPublishTask?)
    && (forall i, j :: 0 <= i < |tasks| && 0 <= j < |tasks| && tasks[i].RDPublishTask? && tasks[j].RDPublishTask? ==> i == j)
  }

  /** Tasks stay sound when the table only loses contexts or gains ones no task holds. */
  lemma TasksFollowTable(tasks: seq<Task>, disc: map<nat, Context>, disc': map<nat, Context>, nextIdent: nat, rdPending: bool, ident: nat)
    requires TasksValid(tasks, disc, nextIdent, rdPending)
    requires || InFlight(disc, ident) || nextIdent <= ident
             || forall i :: 0 <= i < |tasks| && tasks[i].DiscoverTask? ==> tasks[i].context.ident != ident
    requires forall i :: InFlight(disc', i) ==> InFlight(disc, i) || i == ident
    ensures TasksValid(tasks, disc', nextIdent, rdPending)
  {
  }

  /** The table and the tasks stay sound when the next ident is bumped, and the old next ident is in no context. */
  lemma IdentsGrow(disc: map<nat, Context>, reqs: seq<Request>, tasks: seq<Task>, nextIdent: nat, rdPending: bool)
    requires PendingValid(disc, reqs, nextIdent) && TasksValid(tasks, disc, nextIdent, rdPending)
    ensures PendingValid(disc, reqs, nextIdent + 1) && TasksValid(tasks, disc, nextIdent + 1, rdPending)
    ensures !InFlight(disc, nextIdent)
    ensures forall i :: 0 <= i < |tasks| && tasks[i].DiscoverTask? ==> tasks[i].context.ident != nextIdent
  {
  }

  /** A fetch for a new context, with the next ident, keeps the table and the tasks sound once the ident is bumped. */
  lemma FreshContextKeepsValid(st: Pending, tasks: seq<Task>, nextIdent: nat, rdPending: bool, f: Fetch, stack: nat -> int)
    requires PendingValid(st.discovered, st.requests, nextIdent) && TasksValid(tasks, st.discovered, nextIdent, rdPending)
    requires GoesOn(f, nextIdent)
    ensures var out := Try(st, [f], stack).pending;
            PendingValid(out.discovered, out.requests, nextIdent + 1) && TasksValid(tasks, out.discovered, nextIdent + 1, rdPending)
  {
    IdentsGrow(st.discovered, st.requests, tasks, nextIdent, rdPending);
    FreshKeepsPending(st, [f], stack, nextIdent, nextIdent + 1);
    var out := Try(st, [f], stack).pending;
    TasksFollowTable(tasks, st.discovered, out.discovered, nextIdent + 1, rdPending, nextIdent);
  }

  /** Queuing a DiscoverTask for a context that is out of flight and held by no task keeps the tasks sound. */
  lemma DeferKeepsTasks(tasks: seq<Task>, disc: map<nat, Context>, nextIdent: nat, rdPending: bool, t: Task)
    requires TasksValid(tasks, disc, nextIdent, rdPending) && t.DiscoverTask?
    requires t.context.ident < nextIdent && !InFlight(disc, t.context.ident)
    requires forall i :: 0 <= i < |tasks| && tasks[i].DiscoverTask? ==> tasks[i].context.ident != t.context.ident
    ensures TasksValid(tasks + [t], disc, nextIdent, rdPending)
  {
    var r := tasks + [t];
    assert forall i :: 0 <= i < |tasks| ==> r[i] == tasks[i];
  }

  /** The first queued RDPublishTask, or |tasks| when there is none. */
  function RDPublishIndex(tasks: seq<Task>): (k: nat)
    ensures k <= |tasks|
    ensures k < |tasks| ==> tasks[k].RDPublishTask?
    ensures forall j :: 0 <= j < k ==> !tasks[j].RDPublishTask?
    decreases |tasks|
  {
    if |tasks| == 0 || tasks[0].RDPublishTask? then 0 else 1 + RDPublishIndex(tasks[1..])
  }

  /** Bridge::RDPublish: the pending publication is pushed back to `tick`, or one is queued for it. */
  function Republished(tasks: seq<Task>, pending: bool, tick: int): seq<Task> {
    var k := RDPublishIndex(tasks);
    if pending && k < |tasks| then tasks[k := RDPublishTask(tick)] else tasks + [RDPublishTask(tick)]
  }

  /** RDPublish keeps at most one publication queued, due at `tick`, and leaves every other task alone. */
  lemma RepublishKeepsOne(tasks: seq<Task>, disc: map<nat, Context>, nextIdent: nat, pending: bool, tick: int)
    requires TasksValid(tasks, disc, nextIdent, pending)
    ensures var t := Republished(tasks, pending, tick);
            && TasksValid(t, disc, nextIdent, true)
            && (exists k :: 0 <= k < |t| && t[k] == RDPublishTask(tick))
            && (forall k :: 0 <= k < |t| && !t[k].RDPublishTask? ==> k < |tasks| && t[k] == tasks[k])
            && |t| == |tasks| + (if pending then 0 else 1)
  {
    var t := Republished(tasks, pending, tick);
    var k := RDPublishIndex(tasks);
    if pending {
      assert k < |tasks|;
      assert t[k] == RDPublishTask(tick);
    } else {
      assert t[|tasks|] == RDPublishTask(tick);
    }
  }

  /** tasks_.erase at position k. */
  function RemoveTask(tasks: seq<Task>, k: nat): (r: seq<Task>)
    requires k < |tasks|
    ensures |r| == |tasks| - 1
  {
    tasks[..k] + tasks[k + 1..]
  }

  /** The erase shifts the tasks after k down by one and keeps the rest in place. */
  lemma RemoveTaskShifts(tasks: seq<Task>, k: nat)
    requires k < |tasks|
    ensures forall j :: 0 <= j < |tasks| - 1 ==> RemoveTask(tasks, k)[j] == tasks[if j < k then j else j + 1]
  {
  }

  /** Removing a task keeps the rest sound; removing the RDPublishTask clears the pointer. */
  lemma RemoveKeepsTasks(tasks: seq<Task>, k: nat, disc: map<nat, Context>, nextIdent: nat, rdPending: bool)
    requires k < |tasks| && TasksValid(tasks, disc, nextIdent, rdPending)
    ensures TasksValid(RemoveTask(tasks, k), disc, nextIdent, rdPending && !tasks[k].RDPublishTask?)
  {
    var r := RemoveTask(tasks, k);
    RemoveTaskShifts(tasks, k);
    if rdPending && !tasks[k].RDPublishTask? {
      var i :| 0 <= i < |tasks| && tasks[i].RDPublishTask?;
      assert r[if i < k then i else i - 1] == tasks[i];
    }
  }

  // ---------------------------------------------------------------------
  // What each callback decides
  // ---------------------------------------------------------------------

  const DeviceUri: string := "/oic/d"

  /** Bridge::GetSeenState: a NULL piid reads as NOT_SEEN; otherwise the launcher's answer. */
  function SeenStateOf(seenState: string -> SeenState, piid: Option<string>): (s: SeenState)
    ensures piid.None? ==> s == NotSeen
    ensures piid.Some? ==> s == seenState(piid.value)
  {
    match piid
    case None => NotSeen
    case Some(id) => seenState(id)
  }

  /** Where a device's branch goes after /oic/d: deferred, ended, or on to /oic/p (killing the virtual copy first). */
  datatype DeviceStep = Defer | Stop | GoOn(kill: bool)

  /** GetDeviceCB's switch on the seen state and whether the device is itself virtual. */
  function AfterDevice(state: SeenState, isVirtual: bool): DeviceStep {
    match state
    case NotSeen => if isVirtual then Defer else GoOn(false)
    case SeenNative => Stop
    case SeenVirtual => GoOn(!isVirtual)
  }

  /** GetDeviceCB's piid: the "piid" string of the representation, if there is one. */
  function DevicePiid(response: Option<Response>): Option<string> {
    var payload := RepPayload(response);
    if payload.Some? then GetString(payload.value, PiidName) else None
  }

  /** GetDeviceCB's step: no representation ends the branch, else the switch on the piid's seen state. */
  function DeviceStepFor(response: Option<Response>, seenState: string -> SeenState, isVirtual: bool): DeviceStep {
    if RepPayload(response).Some? then AfterDevice(SeenStateOf(seenState, DevicePiid(response)), isVirtual) else Stop
  }

  /** DiscoverTask::Run's switch: every state goes on. */
  function AfterDeferred(state: SeenState, isVirtual: bool): DeviceStep {
    GoOn(state == SeenVirtual && !isVirtual)
  }

  /**
   * After /oic/d: only an unseen virtual device is deferred, SEEN_NATIVE
   * ends the branch, and kill_cb is called exactly for a native device seen
   * as virtual, which then goes on.
   */
  lemma DeviceDecisions(state: SeenState, isVirtual: bool)
    ensures AfterDevice(state, isVirtual) == Defer <==> state == NotSeen && isVirtual
    ensures AfterDevice(state, isVirtual) == Stop <==> state == SeenNative
    ensures AfterDevice(state, isVirtual) == GoOn(true) <==> state == SeenVirtual && !isVirtual
    ensures AfterDevice(state, isVirtual) == GoOn(false) <==> (state == NotSeen && !isVirtual) || (state == SeenVirtual && isVirtual)
  {
  }

  /** The deferred step differs from GetDeviceCB's only on SEEN_NATIVE, which it does not stop. */
  lemma DeferredDiffersOnNative(state: SeenState, isVirtual: bool)
    requires state != NotSeen
    ensures AfterDeferred(state, isVirtual) != AfterDevice(state, isVirtual) <==> state == SeenNative
  {
  }

  /** The /oic/p stage every device goes on with. */
  function PlatformFetch(c: Context): (f: Fetch)
    ensures GoesOn(f, c.ident) && f.Fetch? && f.uri == PlatformUri && f.cb == OnPlatform
  {
    Fetch(c, PlatformUri, AddrsOf(c.device, PlatformUri), OnPlatform)
  }

  /** GetIntrospectionCB's walk: the url of each coap or coaps entry, up to the first entry lacking protocol or url. */
  function CoapUrls(entries: seq<Payload>): (us: seq<string>)
    ensures |us| <= |entries|
    decreases |entries|
  {
    if |entries| == 0 then []
    else match (GetString(entries[0], "protocol"), GetString(entries[0], "url"))
      case (Some(p), Some(u)) => (if p == "coap" || p == "coaps" then [u] else []) + CoapUrls(entries[1..])
      case _ => []
  }

  /** A well-formed entry adds its url exactly when its protocol is coap or coaps; a malformed one ends the walk. */
  lemma CoapUrlsStep(e: Payload, rest: seq<Payload>)
    ensures var p := GetString(e, "protocol");
            var u := GetString(e, "url");
            && (p.None? || u.None? ==> CoapUrls([e] + rest) == [])
            && (p.Some? && u.Some? && (p.value == "coap" || p.value == "coaps") ==> CoapUrls([e] + rest) == [u.value] + CoapUrls(rest))
            && (p.Some? && u.Some? && p.value != "coap" && p.value != "coaps" ==> CoapUrls([e] + rest) == CoapUrls(rest))
  {
    assert ([e] + rest)[0] == e && ([e] + rest)[1..] == rest;
  }

  /** Every candidate url comes from an entry whose protocol is coap or coaps. */
  lemma {:induction false} CoapUrlsFromCoap(entries: seq<Payload>, u: string)
    requires u in CoapUrls(entries)
    ensures exists k :: 0 <= k < |entries| && GetString(entries[k], "url") == Some(u)
                        && GetString(entries[k], "protocol") in {Some("coap"), Some("coaps")}
    decreases |entries|
  {
    var p := GetString(entries[0], "protocol");
    var v := GetString(entries[0], "url");
    if p.Some? && v.Some? && (p.value == "coap" || p.value == "coaps") && u == v.value {
      assert GetString(entries[0], "url") == Some(u);
    } else {
      CoapUrlsFromCoap(entries[1..], u);
      var k :| 0 <= k < |entries[1..]| && GetString(entries[1..][k], "url") == Some(u)
               && GetString(entries[1..][k], "protocol") in {Some("coap"), Some("coaps")};
      assert entries[1..][k] == entries[k + 1];
    }
  }

  /**
   * GetIntrospectionCB's attempts in order: a GET of each candidate url at
   * the responding address, then the inference fallback; without a
   * payload or a urlInfo array only the fallback.
   */
  function IntrospectionPlan(c: Context, response: Option<Response>, secure: bool): (fs: seq<Fetch>)
    ensures |fs| >= 1 && fs[|fs| - 1] == InferenceStage(c, secure)
    ensures forall k :: 0 <= k < |fs| - 1 ==> fs[k].Fetch? && fs[k].context == c && fs[k].cb == OnIntrospectionData
    ensures |fs| > 1 ==> response.Some? && forall k :: 0 <= k < |fs| - 1 ==> fs[k].addrs == [response.value.devAddr]
    ensures AllGoOn(fs, c.ident)
  {
    var payload := RepPayload(response);
    if payload.None? then [InferenceStage(c, secure)]
    else match GetObjectArray(payload.value, UrlInfoName)
      case None => [InferenceStage(c, secure)]
      case Some(entries) =>
        var us := CoapUrls(entries);
        seq(|us|, k requires 0 <= k < |us| => Fetch(c, us[k], [response.value.devAddr], OnIntrospectionData))
        + [InferenceStage(c, secure)]
  }

  /** The attempted urls are exactly the candidates, in order. */
  lemma IntrospectionPlanUrls(c: Context, response: Option<Response>, secure: bool, entries: seq<Payload>)
    requires RepPayload(response).Some? && GetObjectArray(RepPayload(response).value, UrlInfoName) == Some(entries)
    ensures var fs := IntrospectionPlan(c, response, secure);
            |fs| == |CoapUrls(entries)| + 1 && forall k :: 0 <= k < |fs| - 1 ==> fs[k].uri == CoapUrls(entries)[k]
  {
  }

  /** GetIntrospectionDataCB: a parsed introspection document ends the walk; anything else falls back to inference. */
  function IntrospectionDataPlan(c: Context, payload: Option<Payload>, parsed: bool, secure: bool): (fs: seq<Fetch>)
    ensures AllGoOn(fs, c.ident)
    ensures fs == [] <==> payload.Some? && parsed
  {
    if payload.Some? && parsed then [] else [InferenceStage(c, secure)]
  }

  predicate Distinct(s: seq<string>) {
    forall i, j :: 0 <= i < j < |s| ==> s[i] != s[j]
  }

  /** Inserting `xs` into the set `acc`; the order is first-seen. */
  function AddAll(acc: seq<string>, xs: seq<string>): (r: seq<string>)
    requires Distinct(acc)
    ensures Distinct(r)
    ensures forall x :: x in r <==> x in acc || x in xs
    decreases |xs|
  {
    if |xs| == 0 then acc
    else AddAll(if xs[0] in acc then acc else acc + [xs[0]], xs[1..])
  }

  /** GetCB's interface set: the interfaces of every visited resource that carries `rt`, each once. */
  function InterfaceList(rs: seq<Resources.Resource>, ps: seq<Pair>, rt: string): (u: seq<string>)
    ensures Distinct(u)
    ensures forall x :: x in u <==> exists k :: 0 <= k < |ps| && ps[k].resource < |rs|
                                          && rt in rs[ps[k].resource].rts && x in rs[ps[k].resource].ifs
    decreases |ps|
  {
    if |ps| == 0 then []
    else
      var init := InterfaceList(rs, ps[..|ps| - 1], rt);
      var last := ps[|ps| - 1].resource;
      assert forall k :: 0 <= k < |ps| - 1 ==> ps[..|ps| - 1][k] == ps[k];
      if last < |rs| && Resources.HasResourceType(rs[last].rts, rt) then AddAll(init, rs[last].ifs) else init
  }

  /**
   * GetCB's additions for the pair at `it`: the type's definition, unless
   * one is already there, and the resource's path, unless its uri already
   * has one. Each is stored with OCRepPayloadSetPropObjectAsOwner, which
   * takes a NULL object as readily as any other, so a definition that
   * cannot be built and the path IntrospectPath returns, always NULL, are
   * stored as NULL objects and the walk goes on.
   */
  function Infer(c: Context, payload: Option<Payload>, interfaces: seq<string>): (r: Context)
    requires c.it.Some? && ValidPair(c.device.resources, c.it.value)
    ensures r == c.(paths := r.paths, definitions := r.definitions)
  {
    var res := c.device.resources[c.it.value.resource];
    var rt := res.rts[c.it.value.rtype];
    var defs := if Find(c.definitions, rt).Some? then c.definitions
                else Set(c.definitions, rt, ObjOrNull(Introspection.IntrospectDefinition(payload, rt, interfaces)));
    var paths := if Find(c.paths, res.uri).Some? then c.paths
                 else Set(c.paths, res.uri, ObjOrNull(Introspection.IntrospectPathAsWritten(res.rts, res.ifs)));
    c.(paths := paths, definitions := defs)
  }

  /**
   * Inference adds without duplicates: a definition only for a type with
   * none yet, the built one or a NULL object when it cannot be built; a
   * path only for a uri with none yet, and that path is a NULL object;
   * every other entry is kept.
   */
  lemma InferAddsOnce(c: Context, payload: Option<Payload>, interfaces: seq<string>)
    requires c.it.Some? && ValidPair(c.device.resources, c.it.value)
    ensures var r := Infer(c, payload, interfaces);
            var res := c.device.resources[c.it.value.resource];
            var rt := res.rts[c.it.value.rtype];
            var d := Introspection.IntrospectDefinition(payload, rt, interfaces);
            && (Find(c.definitions, rt).Some? ==> r.definitions == c.definitions)
            && (Find(c.definitions, rt).None? && d.Some? ==> Find(r.definitions, rt) == Some(Obj(d.value)))
            && (Find(c.definitions, rt).None? && d.None? ==> Find(r.definitions, rt) == Some(NullObj))
            && (forall n :: n != rt ==> Find(r.definitions, n) == Find(c.definitions, n))
            && (Find(c.paths, res.uri).Some? ==> r.paths == c.paths)
            && (Find(c.paths, res.uri).None? ==> Find(r.paths, res.uri) == Some(NullObj))
            && (forall n :: n != res.uri ==> Find(r.paths, n) == Find(c.paths, n))
  {
    var res := c.device.resources[c.it.value.resource];
    Introspection.IntrospectPathAsWrittenFails(res.rts, res.ifs);
  }

  /** After GetCB's additions: the GET of the next translatable pair, or None at End(). */
  function InferNext(c: Context, secure: bool): (f: Option<Fetch>)
    requires c.it.Some?
    ensures f.Some? ==> GoesOn(f.value, c.ident) && f.value.Fetch? && f.value.cb == OnGet
  {
    var rs := c.device.resources;
    var p := c.it.value;
    match NextFrom(rs, secure, Interfaces.TranslateResourceType, p.resource, p.rtype + 1)
    case None => None
    case Some(q) => Some(Fetch(c.(it := Some(q)), PairUri(rs, q), rs[q.resource].addrs, OnGet))
  }

  /** The document ParseIntrospectionPayload gets once the walk is done. */
  function IntrospectionDocument(c: Context): (p: Payload)
    ensures GetObject(p, "paths") == Some(c.paths) && GetObject(p, "definitions") == Some(c.definitions)
  {
    var withPaths := Set(Empty, "paths", Obj(c.paths));
    var p := Set(withPaths, "definitions", Obj(c.definitions));
    assert Find(p, "paths") == Find(withPaths, "paths");
    p
  }

  /** The OCF discovery payloads of a successful response; none for a failure or another payload type. */
  function DiscoveredPayloads(response: Option<Response>): seq<Resources.DiscoveryPayload> {
    if response.Some? && response.value.result == Resources.StackOk
       && response.value.body.Some? && response.value.body.value.Discovery?
    then response.value.body.value.payloads else []
  }

  /** The new DiscoverContext for a sighting, with the ident `ident`. */
  function NewContext(ident: nat, origin: Resources.DevAddr, p: Resources.DiscoveryPayload): (c: Context)
    requires Resources.AllHaveUri(p.resources)
    ensures c.ident == ident && c.device == Resources.DeviceOf(origin, p)
  {
    Context(ident, Resources.DeviceOf(origin, p), Empty, Empty, 0, None)
  }

  /** HasSeenBefore: some in-flight context is for the device `di`. */
  predicate SeenBefore(disc: map<nat, Context>, di: string) {
    exists h :: h in disc && disc[h].device.di == di
  }

  /** IsSelf, HasSeenBefore and HasTranslatableResource together: whether a sighting starts a discovery. */
  predicate Admitted(disc: map<nat, Context>, selfId: string, p: Resources.DiscoveryPayload, secure: bool) {
    p.sid != selfId && !SeenBefore(disc, p.sid) && OffersTranslatable(p, secure, Interfaces.TranslateResourceType)
  }

  predicate AllAddressable(payloads: seq<Resources.DiscoveryPayload>) {
    forall k :: 0 <= k < |payloads| ==> Resources.AllHaveUri(payloads[k].resources)
  }

  /**
   * DiscoverCB's loop: each admitted payload gets a new context, with the
   * next ident, and a GET of /oic/d; the table and the next ident after.
   */
  function Sightings(st: Pending, next: nat, origin: Resources.DevAddr, payloads: seq<Resources.DiscoveryPayload>, k: nat,
                     selfId: string, secure: bool, stack: nat -> int): (r: (Pending, nat))
    requires AllAddressable(payloads) && k <= |payloads|
    ensures next <= r.1
    decreases |payloads| - k
  {
    if k == |payloads| then (st, next)
    else
      var p := payloads[k];
      if Admitted(st.discovered, selfId, p, secure) then
        Sightings(Try(st, [DeviceFetch(NewContext(next, origin, p))], stack).pending, next + 1,
                  origin, payloads, k + 1, selfId, secure, stack)
      else Sightings(st, next, origin, payloads, k + 1, selfId, secure, stack)
  }

  /** The GET of /oic/d a new context starts with. */
  function DeviceFetch(c: Context): (f: Fetch)
    ensures GoesOn(f, c.ident) && f.Fetch? && f.uri == DeviceUri && f.cb == OnDevice && f.context == c
  {
    Fetch(c, DeviceUri, AddrsOf(c.device, DeviceUri), OnDevice)
  }

  /** ContinueDiscovery on one fetch: its request is issued, and its context keyed under it only when the stack accepts it. */
  lemma TryOne(st: Pending, f: Fetch, stack: nat -> int)
    requires f.Fetch?
    ensures var n := |st.requests|;
            var r := Try(st, [f], stack);
            && r.pending.requests == st.requests + [Request(Get, f.uri, f.addrs, f.cb)]
            && r.pending.discovered == (if stack(n) == Resources.StackOk then st.discovered[n := f.context] else st.discovered)
            && (r.accepted.Some? <==> stack(n) == Resources.StackOk)
  {
    assert [f][0] == f && [f][1..] == [];
  }

  /**
   * One sighting: a payload that is not the bridge's own, is for a device
   * with no context in flight and offers a translatable resource gets a new
   * context and a GET of /oic/d; any other changes nothing.
   */
  lemma OneSighting(st: Pending, next: nat, origin: Resources.DevAddr, p: Resources.DiscoveryPayload,
                    selfId: string, secure: bool, stack: nat -> int)
    requires Resources.AllHaveUri(p.resources)
    ensures var r := Sightings(st, next, origin, [p], 0, selfId, secure, stack);
            && (!Admitted(st.discovered, selfId, p, secure) ==> r == (st, next))
            && (Admitted(st.discovered, selfId, p, secure) ==>
                  r == (Try(st, [DeviceFetch(NewContext(next, origin, p))], stack).pending, next + 1))
  {
    assert [p][0] == p && [p][1..] == [];
  }

  /** DiscoverCB's loop, one sighting further: the rest of the sightings start from that one's outcome. */
  lemma SightingsNext(st: Pending, next: nat, origin: Resources.DevAddr, payloads: seq<Resources.DiscoveryPayload>, k: nat,
                      selfId: string, secure: bool, stack: nat -> int, st': Pending, next': nat)
    requires AllAddressable(payloads) && k < |payloads|
    requires Admitted(st.discovered, selfId, payloads[k], secure) ==>
               st' == Try(st, [DeviceFetch(NewContext(next, origin, payloads[k]))], stack).pending && next' == next + 1
    requires !Admitted(st.discovered, selfId, payloads[k], secure) ==> st' == st && next' == next
    ensures Sightings(st, next, origin, payloads, k, selfId, secure, stack)
            == Sightings(st', next', origin, payloads, k + 1, selfId, secure, stack)
  {
  }

  /** Whether one of the first `n` sightings is of `id`. */
  predicate SeenWithin(payloads: seq<Resources.DiscoveryPayload>, n: nat, id: string) {
    exists k :: 0 <= k < n && k < |payloads| && payloads[k].sid == id
  }

  /** One sighting further, the ids seen are those seen before and the new sighting's. */
  lemma SeenWithinNext(payloads: seq<Resources.DiscoveryPayload>, k: nat)
    requires k < |payloads|
    ensures forall id :: SeenWithin(payloads, k + 1, id) <==> SeenWithin(payloads, k, id) || payloads[k].sid == id
  {
    forall id
      ensures SeenWithin(payloads, k + 1, id) <==> SeenWithin(payloads, k, id) || payloads[k].sid == id
    {
      if SeenWithin(payloads, k + 1, id) {
        var w :| 0 <= w < k + 1 && w < |payloads| && payloads[w].sid == id;
        if w < k {
          assert SeenWithin(payloads, k, id);
        }
      }
    }
  }

  /** The presences that stay after Destroy of every id in `ids`, in order. */
  function WithoutIds(ps: seq<Presence.Presence>, ids: seq<string>): (r: seq<Presence.Presence>)
    ensures |r| <= |ps|
    decreases |ps|
  {
    if |ps| == 0 then []
    else
      var init := ps[..|ps| - 1];
      WithoutIds(init, ids) + (if ps[|ps| - 1].id in ids then [] else [ps[|ps| - 1]])
  }

  /** Destroy of the ids keeps exactly the presences with other ids. */
  lemma {:induction false} WithoutIdsKeeps(ps: seq<Presence.Presence>, ids: seq<string>)
    ensures forall p :: p in WithoutIds(ps, ids) <==> p in ps && p.id !in ids
    decreases |ps|
  {
    if |ps| > 0 {
      var init := ps[..|ps| - 1];
      WithoutIdsKeeps(init, ids);
      assert ps == init + [ps[|ps| - 1]];
    }
  }

  /** Destroying one id after another is destroying them all. */
  lemma {:induction false} WithoutIdsTwice(ps: seq<Presence.Presence>, a: seq<string>, b: seq<string>)
    ensures WithoutIds(WithoutIds(ps, a), b) == WithoutIds(ps, a + b)
    decreases |ps|
  {
    if |ps| > 0 {
      var init := ps[..|ps| - 1];
      var last := ps[|ps| - 1];
      WithoutIdsTwice(init, a, b);
      var m := WithoutIds(init, a);
      if last.id in a {
        assert WithoutIds(ps, a) == m;
      } else {
        var w := m + [last];
        assert WithoutIds(ps, a) == w;
        assert w[..|w| - 1] == m;
      }
    }
  }

  /** The contexts that stay after Destroy of every id in `ids`. */
  function WithoutDevices(disc: map<nat, Context>, ids: seq<string>): (r: map<nat, Context>)
    ensures forall h :: h in r <==> h in disc && disc[h].device.di !in ids
    ensures forall h :: h in r ==> r[h] == disc[h]
  {
    map h | h in disc && disc[h].device.di !in ids :: disc[h]
  }

  /** The ids Process finds absent at `now`, in presence order. */
  function AbsentIds(ps: seq<Presence.Presence>, now: int): (ids: seq<string>)
    reads ps
    ensures |ids| <= |ps|
    decreases |ps|
  {
    if |ps| == 0 then []
    else
      var init := ps[..|ps| - 1];
      AbsentIds(init, now) + (if ps[|ps| - 1].IsPresent(now) then [] else [ps[|ps| - 1].id])
  }

  /** The absent ids are exactly the ids of the presences not present at `now`. */
  lemma {:induction false} AbsentIdsExact(ps: seq<Presence.Presence>, now: int)
    ensures forall k :: 0 <= k < |ps| && !ps[k].IsPresent(now) ==> ps[k].id in AbsentIds(ps, now)
    ensures forall id :: id in AbsentIds(ps, now) ==> exists k :: 0 <= k < |ps| && !ps[k].IsPresent(now) && ps[k].id == id
    decreases |ps|
  {
    if |ps| > 0 {
      var init := ps[..|ps| - 1];
      AbsentIdsExact(init, now);
      assert forall k :: 0 <= k < |init| ==> init[k] == ps[k];
    }
  }

  /** Whether the HAN-FUN half of Process runs: the HF bit of the protocols. */
  function HanFunOn(protocols: bv8): bool {
    protocols & HfBit != 0
  }

  /** Whether Process issues a new discovery: OCF is on and its tick is due. */
  function DiscoveryDue(protocols: bv8, nextTick: int, now: int): bool {
    protocols & OcBit != 0 && now >= nextTick
  }

  /** The requests after Process's discovery step: a discovery of /oic/res, with no destination, when one is due. */
  function WithDiscovery(reqs: seq<Request>, due: bool): seq<Request> {
    reqs + (if due then [Request(Discover, WellKnownUri, [], OnDiscover)] else [])
  }

  /**
   * Process's calls out before its Destroy loop: the HAN-FUN step's when
   * HAN-FUN is on, then the cancel of the previous discovery when a new one
   * is due.
   */
  function TickCalls(protocols: bv8, step: HanStep, discoveryDue: bool, handle: Option<nat>): seq<Event> {
    (if HanFunOn(protocols) then step.sent else []) + (if discoveryDue && handle.Some? then [Cancelled(handle.value)] else [])
  }

  /**
   * Before its Destroy loop Process asks for the device table exactly when
   * HAN-FUN is on and STARTED and its tick is due, cancels exactly the
   * previous discovery when a new one is due, and calls out nothing else.
   */
  lemma TickCallsExact(protocols: bv8, state: HanState, nextTick: int, sender: nat, initialized: bool, now: int,
                       due: bool, handle: Option<nat>)
    ensures var c := TickCalls(protocols, HanFunStep(state, nextTick, sender, initialized, now), due, handle);
            && (TableRequest(sender) in c <==> HanFunOn(protocols) && state == Started && now >= nextTick)
            && (forall h: nat :: Cancelled(h) in c <==> due && handle == Some(h))
            && (forall e :: e in c ==> e == TableRequest(sender) || e.Cancelled?)
  {
  }

  /** Whether an RD publication is still queued after Process at `now`: one was pending and its tick is later. */
  function PublicationLeft(tasks: seq<Task>, pending: bool, now: int): bool {
    var k := RDPublishIndex(tasks);
    pending && k < |tasks| && now < tasks[k].tick
  }

  /**
   * With the tasks sound, the queue Process leaves holds an RDPublishTask
   * exactly when the pending publication was not yet due.
   */
  lemma PublicationLeftExact(tasks: seq<Task>, disc: map<nat, Context>, nextIdent: nat, rdPending: bool, now: int)
    requires TasksValid(tasks, disc, nextIdent, rdPending)
    ensures (exists i :: 0 <= i < |NotDue(tasks, now)| && NotDue(tasks, now)[i].RDPublishTask?)
            <==> PublicationLeft(tasks, rdPending, now)
  {
    var left := NotDue(tasks, now);
    var k := RDPublishIndex(tasks);
    NotDueKeeps(tasks, now);
    if exists i :: 0 <= i < |left| && left[i].RDPublishTask? {
      var i :| 0 <= i < |left| && left[i].RDPublishTask?;
      assert left[i] in tasks;
      var j :| 0 <= j < |tasks| && tasks[j] == left[i];
      assert tasks[j].RDPublishTask? && now < tasks[j].tick;
      assert j == k && rdPending;
      assert PublicationLeft(tasks, rdPending, now);
    }
    if PublicationLeft(tasks, rdPending, now) {
      assert tasks[k] in left;
      var i :| 0 <= i < |left| && left[i] == tasks[k];
      assert left[i].RDPublishTask?;
      assert exists i :: 0 <= i < |NotDue(tasks, now)| && NotDue(tasks, now)[i].RDPublishTask?;
    }
  }

  /** The tasks Process leaves queued at `now`, in order: those not yet due. */
  function NotDue(tasks: seq<Task>, now: int): (r: seq<Task>)
    ensures |r| <= |tasks|
    decreases |tasks|
  {
    if |tasks| == 0 then []
    else
      var init := tasks[..|tasks| - 1];
      NotDue(init, now) + (if now >= tasks[|tasks| - 1].tick then [] else [tasks[|tasks| - 1]])
  }

  /** The queue Process leaves holds exactly the tasks that are not due. */
  lemma {:induction false} NotDueKeeps(tasks: seq<Task>, now: int)
    ensures forall t :: t in NotDue(tasks, now) <==> t in tasks && now < t.tick
    decreases |tasks|
  {
    if |tasks| > 0 {
      var init := tasks[..|tasks| - 1];
      NotDueKeeps(init, now);
      assert tasks == init + [tasks[|tasks| - 1]];
    }
  }

  /** GetProtocolIndependentId on a table row: the hashed UUID text, None unless both IPUI and EMC are there. */
  function TablePiid(e: DeviceRecord, sha1: seq<Hash.byte> -> Hash.Digest, uuidString: Hash.Uuid -> string): (piid: Option<string>)
    requires WellFormed(e)
    ensures piid.None? <==> e.ipui.None? || e.emc.None?
  {
    if e.ipui.Some? && e.emc.Some? then Some(uuidString(Hash.StampAsWritten(sha1(Hash.DeviceInput(e.ipui, e.emc))))) else None
  }

  /** What one table row starts: a bridge process for an unseen device, or for one seen as virtual after killing that. */
  function RowEvents(piid: Option<string>, state: SeenState, sender: nat, secure: bool): (es: seq<Event>) {
    match piid
    case None => []
    case Some(id) =>
      match state
      case NotSeen => [Exec(id, sender, secure, false)]
      case SeenNative => []
      case SeenVirtual => [Kill(id), Exec(id, sender, secure, false)]
  }

  /** A row starts a process unless its piid is missing or SEEN_NATIVE, and kills only one seen as virtual. */
  lemma RowEventsHas(piid: Option<string>, state: SeenState, sender: nat, secure: bool, e: Event)
    ensures e in RowEvents(piid, state, sender, secure) <==>
              piid.Some? && ((state != SeenNative && e == Exec(piid.value, sender, secure, false))
                             || (state == SeenVirtual && e == Kill(piid.value)))
  {
  }

  /** The piid of each row of the table, in order. */
  function TablePiids(rows: seq<DeviceRecord>, sha1: seq<Hash.byte> -> Hash.Digest, uuidString: Hash.Uuid -> string)
    : (ps: seq<Option<string>>)
    requires forall i :: 0 <= i < |rows| ==> WellFormed(rows[i])
    ensures |ps| == |rows|
  {
    seq(|rows|, i requires 0 <= i < |rows| => TablePiid(rows[i], sha1, uuidString))
  }

  /**
   * The manager's GetDeviceTableCB over the first `k` rows, given the
   * rows' piids; row i's process gets sender dev_index + i + 1.
   */
  function TableEvents(piids: seq<Option<string>>, k: nat, devIndex: nat, seenState: string -> SeenState, secure: bool)
    : seq<Event>
    requires k <= |piids|
  {
    if k == 0 then []
    else
      TableEvents(piids, k - 1, devIndex, seenState, secure)
      + RowEvents(piids[k - 1], SeenStateOf(seenState, piids[k - 1]), devIndex + k, secure)
  }

  /** One more row of the table walked. */
  lemma TableEventsStep(piids: seq<Option<string>>, i: nat, devIndex: nat, seenState: string -> SeenState, secure: bool)
    requires i < |piids|
    ensures TableEvents(piids, i + 1, devIndex, seenState, secure)
            == TableEvents(piids, i, devIndex, seenState, secure)
               + RowEvents(piids[i], SeenStateOf(seenState, piids[i]), devIndex + i + 1, secure)
  {
  }

  /**
   * A bridge process is started for a row exactly when the row has a piid
   * that is not SEEN_NATIVE, with the row's sender; a kill happens only
   * for a piid seen as virtual.
   */
  lemma {:induction false} TableEventsExec(piids: seq<Option<string>>, k: nat, devIndex: nat, seenState: string -> SeenState,
                                           secure: bool, e: Event)
    requires k <= |piids|
    ensures e in TableEvents(piids, k, devIndex, seenState, secure) <==>
              exists i :: 0 <= i < k && RowStarts(piids, i, devIndex, seenState, secure, e)
    decreases k
  {
    if k > 0 {
      TableEventsExec(piids, k - 1, devIndex, seenState, secure, e);
      RowEventsHas(piids[k - 1], SeenStateOf(seenState, piids[k - 1]), devIndex + k, secure, e);
      var before := TableEvents(piids, k - 1, devIndex, seenState, secure);
      var row := RowEvents(piids[k - 1], SeenStateOf(seenState, piids[k - 1]), devIndex + k, secure);
      assert e in row <==> RowStarts(piids, k - 1, devIndex, seenState, secure, e);
      if e in before {
        var i :| 0 <= i < k - 1 && RowStarts(piids, i, devIndex, seenState, secure, e);
        assert 0 <= i < k;
      }
      if exists i :: 0 <= i < k && RowStarts(piids, i, devIndex, seenState, secure, e) {
        var i :| 0 <= i < k && RowStarts(piids, i, devIndex, seenState, secure, e);
        if i < k - 1 {
          assert e in before;
        } else {
          assert i == k - 1;
        }
      }
    }
  }

  /**
   * Row i of the table starts the bridge process `e` or kills it: the
   * row has a piid, and `e` is the start of a process for it, with
   * sender dev_index + i + 1, unless it was seen as native, or its kill
   * if it was seen as virtual.
   */
  ghost predicate RowStarts(piids: seq<Option<string>>, i: nat, devIndex: nat, seenState: string -> SeenState,
                            secure: bool, e: Event)
    requires i < |piids|
  {
    && piids[i].Some?
    && (|| (seenState(piids[i].value) != SeenNative && e == Exec(piids[i].value, devIndex + i + 1, secure, false))
        || (seenState(piids[i].value) == SeenVirtual && e == Kill(piids[i].value)))
  }

  /** Destroying one id after others is destroying them all, for the table too. */
  lemma WithoutDevicesTwice(disc: map<nat, Context>, a: seq<string>, b: seq<string>)
    ensures WithoutDevices(WithoutDevices(disc, a), b) == WithoutDevices(disc, a + b)
  {
  }

  /** The virtual devices that stay after Destroy(address). */
  function WithoutAddress(vs: seq<VirtualDevice>, address: nat): (r: seq<VirtualDevice>)
    ensures |r| <= |vs|
    decreases |vs|
  {
    if |vs| == 0 then []
    else
      var init := vs[..|vs| - 1];
      WithoutAddress(init, address) + (if vs[|vs| - 1].address == address then [] else [vs[|vs| - 1]])
  }

  /** The virtual resources (recorded by their HAN-FUN address) that stay after Destroy(address). */
  function ResourcesWithout(rs: seq<nat>, address: nat): (r: seq<nat>)
    ensures |r| <= |rs|
    decreases |rs|
  {
    if |rs| == 0 then []
    else
      var init := rs[..|rs| - 1];
      ResourcesWithout(init, address) + (if rs[|rs| - 1] == address then [] else [rs[|rs| - 1]])
  }

  /** Destroy(address) keeps exactly the virtual resources at other addresses, in order. */
  lemma {:induction false} ResourcesWithoutKeeps(rs: seq<nat>, address: nat)
    ensures forall a :: a in ResourcesWithout(rs, address) <==> a in rs && a != address
    ensures multiset(ResourcesWithout(rs, address))[address] == 0
    ensures forall a :: a != address ==> multiset(ResourcesWithout(rs, address))[a] == multiset(rs)[a]
    decreases |rs|
  {
    if |rs| > 0 {
      var init := rs[..|rs| - 1];
      ResourcesWithoutKeeps(init, address);
      assert rs == init + [rs[|rs| - 1]];
    }
  }

  /** Destroy(address) keeps exactly the devices at other addresses. */
  lemma {:induction false} WithoutAddressKeeps(vs: seq<VirtualDevice>, address: nat)
    ensures forall v :: v in WithoutAddress(vs, address) <==> v in vs && v.address != address
    decreases |vs|
  {
    if |vs| > 0 {
      var init := vs[..|vs| - 1];
      WithoutAddressKeeps(init, address);
      assert vs == init + [vs[|vs| - 1]];
    }
  }

  // ---------------------------------------------------------------------
  // Process: the HAN-FUN state, the timers and the tasks
  // ---------------------------------------------------------------------

  /** The HAN-FUN half of Process: the new state, the next device-table tick and what is sent. */
  datatype HanStep = HanStep(state: HanState, nextTick: int, sent: seq<Event>)

  /** get_device_table as Process asks it: the first page for the manager, its own row for a plugin. */
  function TableRequest(sender: nat): (e: Event)
    ensures e.DeviceTableRequested? && e.start < 256
  {
    if sender == 0 then DeviceTableRequested(0, TablePage) else DeviceTableRequested((sender - 1) % 256, 1)
  }

  function HanFunStep(state: HanState, nextTick: int, sender: nat, initialized: bool, now: int): HanStep {
    match state
    case Created => HanStep(if initialized then Started else Created, nextTick, [])
    case Started =>
      if now >= nextTick then HanStep(Started, now + HfDiscoverPeriodSecs, [TableRequest(sender)])
      else HanStep(Started, nextTick, [])
    case Running => HanStep(Running, nextTick, [])
  }

  /**
   * The HAN-FUN state only moves forward, from CREATED to STARTED once the
   * client is initialised; the device table is asked for exactly when
   * STARTED and due, and then not again for 30 seconds; RUNNING is inert.
   */
  lemma HanFunProgress(state: HanState, nextTick: int, sender: nat, initialized: bool, now: int)
    ensures var r := HanFunStep(state, nextTick, sender, initialized, now);
            && r.state == (if state == Created && initialized then Started else state)
            && (r.sent != [] <==> state == Started && now >= nextTick)
            && (r.sent != [] ==> r.sent == [TableRequest(sender)] && r.nextTick == now + 30 && r.nextTick > now)
            && (r.sent == [] ==> r.nextTick == nextTick)
  {
  }

  /** The manager asks for five rows from the first, a plugin for the one row before its own sender. */
  lemma TableRequestRows(sender: nat)
    requires sender < 65536
    ensures sender == 0 ==> TableRequest(sender) == DeviceTableRequested(0, 5)
    ensures 0 < sender <= 256 ==> TableRequest(sender) == DeviceTableRequested(sender - 1, 1)
  {
  }

  /** The document RDPublishTask::Run hands to the persistent store, as SetIntrospectionData settles it. */
  function StoredIntrospection(resourcesKnown: bool, encode: Payload -> seq<Text.uint8>): Introspection.Encoding {
    var bytes := encode(Introspection.Skeleton("TITLE", "VERSION"));
    if resourcesKnown then Introspection.Encoding(Introspection.NoError, |bytes|, Some(bytes))
    else Introspection.Encoding(Introspection.InternalError, 1024, None)
  }

  /**
   * What one due task would do to the table and the calls out if
   * DiscoverTask::Run went on without its lookup: the deferred context goes
   * on to /oic/p, after kill_cb for a native device seen as virtual;
   * RDPublishTask::Run publishes.
   */
  function TaskEffect(st: Pending, t: Task, seenState: string -> SeenState, stack: nat -> int, published: Event): (Pending, seq<Event>) {
    match t
    case RDPublishTask(_) => (st, [published])
    case DiscoverTask(_, piid, c) =>
      var step := AfterDeferred(SeenStateOf(seenState, Some(piid)), Resources.IsVirtual(c.device));
      (Try(st, [PlatformFetch(c)], stack).pending, if step == GoOn(true) then [Kill(piid)] else [])
  }

  /**
   * What one due task does: DiscoverTask::Run goes on only when it finds its
   * own context among the in-flight ones, and otherwise only deletes it.
   */
  function TaskEffectAsWritten(st: Pending, t: Task, seenState: string -> SeenState, stack: nat -> int, published: Event): (Pending, seq<Event>) {
    if t.DiscoverTask? && !InFlight(st.discovered, t.context.ident) then (st, [])
    else TaskEffect(st, t, seenState, stack, published)
  }

  /**
   * The deferred branch as written never resumes: a queued context is out of
   * flight by the tasks' soundness, so the lookup always fails and Run only
   * deletes it.
   */
  lemma DeferredDroppedAsWritten(st: Pending, tasks: seq<Task>, nextIdent: nat, rdPending: bool, i: nat,
                                 seenState: string -> SeenState, stack: nat -> int, published: Event)
    requires TasksValid(tasks, st.discovered, nextIdent, rdPending) && i < |tasks| && tasks[i].DiscoverTask?
    ensures TaskEffectAsWritten(st, tasks[i], seenState, stack, published) == (st, [])
  {
  }

  /**
   * Run without the lookup resumes the branch: its context is in flight
   * afterwards exactly when the stack accepts the GET of /oic/p, and
   * kill_cb is called exactly for a native device seen as virtual.
   */
  lemma DeferredResumes(st: Pending, tasks: seq<Task>, nextIdent: nat, rdPending: bool, i: nat,
                        seenState: string -> SeenState, stack: nat -> int, published: Event)
    requires PendingValid(st.discovered, st.requests, nextIdent) && TasksValid(tasks, st.discovered, nextIdent, rdPending)
    requires i < |tasks| && tasks[i].DiscoverTask?
    ensures var t := tasks[i];
            var r := TaskEffect(st, t, seenState, stack, published);
            && (InFlight(r.0.discovered, t.context.ident) <==> stack(|st.requests|) == Resources.StackOk)
            && r.0.requests == st.requests + [Request(Get, PlatformUri, AddrsOf(t.context.device, PlatformUri), OnPlatform)]
            && (r.1 == [Kill(t.piid)] <==> seenState(t.piid) == SeenVirtual && !Resources.IsVirtual(t.context.device))
            && (r.1 != [Kill(t.piid)] ==> r.1 == [])
  {
    var c := tasks[i].context;
    var f := PlatformFetch(c);
    TryOne(st, f, stack);
    var out := Try(st, [f], stack).pending;
    if stack(|st.requests|) == Resources.StackOk {
      assert out.discovered[|st.requests|] == c;
    } else {
      assert out.discovered == st.discovered;
    }
  }

  /**
   * Process's task loop over `ts` in list order: each task due at `now` runs,
   * the others are skipped.
   */
  function Drain(st: Pending, ts: seq<Task>, now: int, seenState: string -> SeenState, stack: nat -> int, published: Event): (Pending, seq<Event>)
    decreases |ts|
  {
    if |ts| == 0 then (st, [])
    else
      var before := Drain(st, ts[..|ts| - 1], now, seenState, stack, published);
      var t := ts[|ts| - 1];
      if now >= t.tick then
        var after := TaskEffectAsWritten(before.0, t, seenState, stack, published);
        (after.0, before.1 + after.1)
      else before
  }

  /** A loop over tasks none of which is due changes nothing and calls nothing. */
  lemma {:induction false} NothingDueDrainsNothing(st: Pending, ts: seq<Task>, now: int, seenState: string -> SeenState,
                                                   stack: nat -> int, published: Event)
    requires forall k :: 0 <= k < |ts| ==> now < ts[k].tick
    ensures Drain(st, ts, now, seenState, stack, published) == (st, [])
    decreases |ts|
  {
    if |ts| > 0 {
      NothingDueDrainsNothing(st, ts[..|ts| - 1], now, seenState, stack, published);
    }
  }

  /** Tasks none of which is due all stay queued, in order. */
  lemma {:induction false} NothingDueKeepsAll(ts: seq<Task>, now: int)
    requires forall k :: 0 <= k < |ts| ==> now < ts[k].tick
    ensures NotDue(ts, now) == ts
    decreases |ts|
  {
    if |ts| > 0 {
      var init := ts[..|ts| - 1];
      NothingDueKeepsAll(init, now);
      assert ts == init + [ts[|ts| - 1]];
    }
  }

  /** A due RDPublishTask publishes once, and the loop publishes nothing else: a call out is a kill or that publication. */
  lemma {:induction false} DrainCallsOut(st: Pending, ts: seq<Task>, now: int, seenState: string -> SeenState,
                                         stack: nat -> int, published: Event, e: Event)
    requires e in Drain(st, ts, now, seenState, stack, published).1
    ensures e == published || e.Kill?
    ensures e == published && !published.Kill? ==> exists k :: 0 <= k < |ts| && ts[k].RDPublishTask? && now >= ts[k].tick
    decreases |ts|
  {
    var init := ts[..|ts| - 1];
    var before := Drain(st, init, now, seenState, stack, published);
    var t := ts[|ts| - 1];
    if e in before.1 {
      DrainCallsOut(st, init, now, seenState, stack, published, e);
      if e == published && !published.Kill? {
        var k :| 0 <= k < |init| && init[k].RDPublishTask? && now >= init[k].tick;
        assert ts[k] == init[k];
      }
    } else {
      assert now >= t.tick;
      if !t.RDPublishTask? {
        assert e.Kill?;
      }
    }
  }

  /** Running one task and dropping it from the queue keeps the table and the tasks sound. */
  lemma TaskKeepsValid(st: Pending, tasks: seq<Task>, i: nat, nextIdent: nat, rdPending: bool,
                       seenState: string -> SeenState, stack: nat -> int, published: Event)
    requires PendingValid(st.discovered, st.requests, nextIdent) && TasksValid(tasks, st.discovered, nextIdent, rdPending)
    requires i < |tasks|
    ensures var out := TaskEffect(st, tasks[i], seenState, stack, published).0;
            && PendingValid(out.discovered, out.requests, nextIdent)
            && TasksValid(RemoveTask(tasks, i), out.discovered, nextIdent, rdPending && !tasks[i].RDPublishTask?)
  {
    var rest := RemoveTask(tasks, i);
    RemoveTaskShifts(tasks, i);
    RemoveKeepsTasks(tasks, i, st.discovered, nextIdent, rdPending);
    var t := tasks[i];
    if t.DiscoverTask? {
      var c := t.context;
      FreshKeepsPending(st, [PlatformFetch(c)], stack, c.ident, nextIdent);
      var out := Try(st, [PlatformFetch(c)], stack).pending;
      assert forall j :: 0 <= j < |rest| && rest[j].DiscoverTask? ==> rest[j].context.ident != c.ident by {
        forall j | 0 <= j < |rest| && rest[j].DiscoverTask? ensures rest[j].context.ident != c.ident {
          var k := if j < i then j else j + 1;
          assert rest[j] == tasks[k] && k != i;
        }
      }
      TasksFollowTable(rest, st.discovered, out.discovered, nextIdent, rdPending && !t.RDPublishTask?, c.ident);
    }
  }

  /** Running one task as written and dropping it from the queue keeps the table and the tasks sound. */
  lemma TaskAsWrittenKeepsValid(st: Pending, tasks: seq<Task>, i: nat, nextIdent: nat, rdPending: bool,
                                seenState: string -> SeenState, stack: nat -> int, published: Event)
    requires PendingValid(st.discovered, st.requests, nextIdent) && TasksValid(tasks, st.discovered, nextIdent, rdPending)
    requires i < |tasks|
    ensures var out := TaskEffectAsWritten(st, tasks[i], seenState, stack, published).0;
            && PendingValid(out.discovered, out.requests, nextIdent)
            && TasksValid(RemoveTask(tasks, i), out.discovered, nextIdent, rdPending && !tasks[i].RDPublishTask?)
  {
    if tasks[i].DiscoverTask? {
      DeferredDroppedAsWritten(st, tasks, nextIdent, rdPending, i, seenState, stack, published);
      RemoveKeepsTasks(tasks, i, st.discovered, nextIdent, rdPending);
    } else {
      TaskKeepsValid(st, tasks, i, nextIdent, rdPending, seenState, stack, published);
    }
  }

  /** Issuing one more request keeps the table sound. */
  lemma IssueKeepsPending(disc: map<nat, Context>, reqs: seq<Request>, r: Request, nextIdent: nat)
    requires PendingValid(disc, reqs, nextIdent)
    ensures PendingValid(disc, reqs + [r], nextIdent)
  {
    DropKeepsPending(disc, disc, reqs, reqs + [r], nextIdent);
  }

  /** An erase loop erasing at i: the walked part stays, and the rest loses its head. */
  lemma EraseSlices<T>(s: seq<T>, i: nat)
    requires i < |s|
    ensures (s[..i] + s[i + 1..])[..i] == s[..i] && (s[..i] + s[i + 1..])[i..] == s[i..][1..]
  {
  }

  /** An erase loop stepping over i: the walked part gains it, and the rest loses its head. */
  lemma SkipSlices<T>(s: seq<T>, i: nat)
    requires i < |s|
    ensures s[..i + 1] == s[..i] + [s[i]] && s[i + 1..] == s[i..][1..] && s[i..][0] == s[i]
  {
  }

  /** Destroy of no id keeps every presence. */
  lemma {:induction false} WithoutNoIds(ps: seq<Presence.Presence>)
    ensures WithoutIds(ps, []) == ps
    decreases |ps|
  {
    if |ps| > 0 {
      WithoutNoIds(ps[..|ps| - 1]);
      assert ps == ps[..|ps| - 1] + [ps[|ps| - 1]];
    }
  }

  /** One more presence walked by the erase loop. */
  lemma WithoutIdsStep(ps: seq<Presence.Presence>, j: nat, ids: seq<string>)
    requires j < |ps|
    ensures WithoutIds(ps[..j + 1], ids) == WithoutIds(ps[..j], ids) + (if ps[j].id in ids then [] else [ps[j]])
  {
    assert ps[..j + 1][..j] == ps[..j];
  }

  /** One more virtual device walked by the erase loop. */
  lemma WithoutAddressStep(vs: seq<VirtualDevice>, j: nat, address: nat)
    requires j < |vs|
    ensures WithoutAddress(vs[..j + 1], address) == WithoutAddress(vs[..j], address) + (if vs[j].address == address then [] else [vs[j]])
  {
    assert vs[..j + 1][..j] == vs[..j];
  }

  /** One more virtual resource walked by the erase loop. */
  lemma ResourcesWithoutStep(rs: seq<nat>, j: nat, address: nat)
    requires j < |rs|
    ensures ResourcesWithout(rs[..j + 1], address) == ResourcesWithout(rs[..j], address) + (if rs[j] == address then [] else [rs[j]])
  {
    assert rs[..j + 1][..j] == rs[..j];
  }

  /** One more task walked by Process's task loop: what stays queued. */
  lemma NotDueStep(ts: seq<Task>, j: nat, now: int)
    requires j < |ts|
    ensures NotDue(ts[..j + 1], now) == NotDue(ts[..j], now) + (if now >= ts[j].tick then [] else [ts[j]])
  {
    assert ts[..j + 1][..j] == ts[..j];
  }

  /** One more task walked by Process's task loop: what has run. */
  lemma DrainStep(st: Pending, ts: seq<Task>, j: nat, now: int, seenState: string -> SeenState, stack: nat -> int, published: Event)
    requires j < |ts|
    ensures var before := Drain(st, ts[..j], now, seenState, stack, published);
            var after := TaskEffectAsWritten(before.0, ts[j], seenState, stack, published);
            Drain(st, ts[..j + 1], now, seenState, stack, published)
            == if now >= ts[j].tick then (after.0, before.1 + after.1) else before
  {
    assert ts[..j + 1][..j] == ts[..j];
  }

  /** Events appended in two steps are the events appended at once. */
  lemma EventsAssoc(a: seq<Event>, b: seq<Event>, c: seq<Event>)
    ensures a + (b + c) == (a + b) + c
  {
  }

  /** Process's task loop, one due task further: erasing it leaves the walked part and the rest in order. */
  lemma WalkRun(t0: seq<Task>, j: nat, now: int, tasks: seq<Task>, i: nat)
    requires i < |tasks| && j <= |t0| && now >= tasks[i].tick
    requires tasks[..i] == NotDue(t0[..j], now) && tasks[i..] == t0[j..]
    ensures j < |t0| && tasks[i] == t0[j]
    ensures RemoveTask(tasks, i)[..i] == NotDue(t0[..j + 1], now) && RemoveTask(tasks, i)[i..] == t0[j + 1..]
  {
    assert tasks[i..][0] == tasks[i];
    NotDueStep(t0, j, now);
    assert t0[j..][1..] == t0[j + 1..];
    assert RemoveTask(tasks, i)[i..] == tasks[i..][1..];
  }

  /** Process's task loop, one task further that is not due: it stays where it is. */
  lemma WalkSkip(t0: seq<Task>, j: nat, now: int, tasks: seq<Task>, i: nat)
    requires i < |tasks| && j <= |t0| && now < tasks[i].tick
    requires tasks[..i] == NotDue(t0[..j], now) && tasks[i..] == t0[j..]
    ensures j < |t0| && tasks[i] == t0[j]
    ensures tasks[..i + 1] == NotDue(t0[..j + 1], now) && tasks[i + 1..] == t0[j + 1..]
  {
    assert tasks[i..][0] == tasks[i];
    NotDueStep(t0, j, now);
    assert t0[j..][1..] == t0[j + 1..];
    assert tasks[i + 1..] == tasks[i..][1..];
    assert tasks[..i + 1] == tasks[..i] + [tasks[i]];
  }

  /** Process's task loop at the end of the list: what stays is NotDue of the whole list. */
  lemma WalkEnd(t0: seq<Task>, j: nat, now: int, tasks: seq<Task>, i: nat)
    requires i == |tasks| && j <= |t0|
    requires tasks[..i] == NotDue(t0[..j], now) && tasks[i..] == t0[j..]
    ensures j == |t0| && tasks == NotDue(t0, now)
  {
    assert t0[..j] == t0;
  }

  /** The next stage, or none when the response carries no representation. */
  function AfterPayload(payload: Option<Payload>, f: Fetch): (fs: seq<Fetch>)
    ensures fs == [] <==> payload.None?
  {
    if payload.None? then [] else [f]
  }

  /**
   * GetCollectionCB: the response's links move under the collection at
   * `rit`; then the next collection after it, else introspection.  A
   * missing payload or a failed move abandons the branch.
   */
  function CollectionPlan(c: Context, response: Option<Response>, secure: bool): (fs: seq<Fetch>)
    requires Ready(OnCollection, c)
    ensures AllGoOn(fs, c.ident)
    ensures fs != [] ==> RepPayload(response).Some?
  {
    if RepPayload(response).None? then []
    else
      var rs := c.device.resources;
      var uri := rs[c.rit].uri;
      var chain := [response.value.body.value.rep] + response.value.body.value.next;
      var o := Resources.MoveLinks(rs, uri, Resources.Links(chain));
      if o.Linked? then [CollectionStage(c.(device := c.device.(resources := o.resources)), ResumeAsWritten(c.rit), secure)]
      else []
  }

  /** The interfaces GetCB gives IntrospectDefinition for the type at `it`. */
  function DefinitionInterfaces(c: Context, secure: bool): seq<string>
    requires c.it.Some? && ValidPair(c.device.resources, c.it.value)
  {
    var rs := c.device.resources;
    InterfaceList(rs, PairsFrom(rs, secure, Interfaces.TranslateResourceType, 0, 0), rs[c.it.value.resource].rts[c.it.value.rtype])
  }

  /** GetCB: the additions for the pair at `it`, then the GET of the next pair. */
  function GetPlan(c: Context, payload: Option<Payload>, secure: bool): (fs: seq<Fetch>)
    requires Ready(OnGet, c)
    ensures AllGoOn(fs, c.ident)
  {
    match InferNext(Infer(c, payload, DefinitionInterfaces(c, secure)), secure)
    case None => []
    case Some(f) => [f]
  }

  /** The context GetCB hands to ParseIntrospectionPayload when the walk has reached End(). */
  function WalkDone(c: Context, payload: Option<Payload>, secure: bool): Option<Context>
    requires Ready(OnGet, c)
  {
    var next := Infer(c, payload, DefinitionInterfaces(c, secure));
    if InferNext(next, secure).None? then Some(next) else None
  }

  /**
   * GetCB goes on with a GET or ends the walk, exactly one of the two and
   * whatever the response; the finished walk keeps the device.
   */
  lemma GetEndsOrGoesOn(c: Context, payload: Option<Payload>, secure: bool)
    requires Ready(OnGet, c)
    ensures |GetPlan(c, payload, secure)| <= 1
    ensures WalkDone(c, payload, secure).Some? <==> GetPlan(c, payload, secure) == []
    ensures WalkDone(c, payload, secure).Some? ==> WalkDone(c, payload, secure).value.device == c.device
  {
  }

  /** The device-configuration, platform-configuration and collection steps abandon the branch without a representation. */
  lemma MissingPayloadAbandons(c: Context, secure: bool)
    requires Ready(OnCollection, c)
    ensures AfterPayload(None, ConfigurationStage(c, secure)) == []
    ensures AfterPayload(None, PlatformConfigurationStage(c, secure)) == []
    ensures CollectionPlan(c, None, secure) == []
  {
  }

  /**
   * GetCB, unlike the earlier stages, goes on without a representation: a
   * type without a definition then gets one whose only property is "rt".
   */
  lemma GetNeedsNoPayload(c: Context, secure: bool)
    requires Ready(OnGet, c)
    requires Find(c.definitions, c.device.resources[c.it.value.resource].rts[c.it.value.rtype]).None?
    ensures var rt := c.device.resources[c.it.value.resource].rts[c.it.value.rtype];
            var d := Find(Infer(c, None, DefinitionInterfaces(c, secure)).definitions, rt);
            && d.Some? && d.value.Obj?
            && GetObject(d.value.obj, "properties") == Some(Set(Empty, "rt", Obj(Introspection.ResourceTypeSchema(rt))))
  {
    InferAddsOnce(c, None, DefinitionInterfaces(c, secure));
  }

  /** HasTranslatableResource's inner loop over one resource's types. */
  method HasTranslatableType(types: seq<string>, accept: string -> bool) returns (found: bool)
    ensures found <==> AcceptsAny(types, accept)
  {
    var j := 0;
    while j < |types|
      invariant 0 <= j <= |types|
      invariant forall b :: 0 <= b < j ==> !accept(types[b])
    {
      if accept(types[j]) {
        return true;
      }
      j := j + 1;
    }
    return false;
  }

  // ---------------------------------------------------------------------
  // The Bridge object
  // ---------------------------------------------------------------------

  /**
   * What the bridge calls and cannot see: OCGetServerInstanceIDString, the
   * launcher's seen-state callback, ::ParseIntrospectionPayload, the
   * stack's answer to the n-th request, SHA-1, the UUID text form, the
   * CBOR encoder and whether OCGetNumberOfResources succeeds.
   */
  datatype Environment = Environment(
    selfId: string,
    seenState: string -> SeenState,
    parseIntrospection: (Resources.Device, Payload) -> bool,
    stack: nat -> int,
    sha1: seq<Hash.byte> -> Hash.Digest,
    uuidString: Hash.Uuid -> string,
    encode: Payload -> seq<Text.uint8>,
    resourcesKnown: bool)

  /** Bridge: times are the `now` each entry point is given for time(NULL). */
  class Bridge {
    const protocols: bv8
    const sender: nat
    const env: Environment
    var secureMode: bool
    var hanState: HanState
    var discoverHandle: Option<nat>
    var discoverNextTick: int
    var getDevicesNextTick: int
    /** discovered_, keyed by the index of the request each handle stands for. */
    var discovered: map<nat, Context>
    /** Every request issued so far; a handle is an index into it. */
    var requests: seq<Request>
    var presence: seq<Presence.Presence>
    var tasks: seq<Task>
    /** Whether rd_publish_task_ is set. */
    var rdPublishPending: bool
    /** Every exec_cb, kill_cb, get_device_table, Cancel and introspection write, oldest first. */
    var events: seq<Event>
    /** The ident the next DiscoverContext gets. */
    var nextIdent: nat
    var virtualDevices: seq<VirtualDevice>
    /** The HAN-FUN addresses a VirtualResource was created for. */
    var virtualResources: seq<nat>

    ghost predicate Valid()
      reads this`discovered, this`requests, this`nextIdent, this`tasks, this`rdPublishPending, this`discoverHandle
    {
      && PendingValid(discovered, requests, nextIdent)
      && TasksValid(tasks, discovered, nextIdent, rdPublishPending)
      && (discoverHandle.Some? ==> discoverHandle.value < |requests|)
    }

    /** The manager's constructor: both protocols as asked, sender 0. */
    constructor Manager(protocols: bv8, env: Environment, secureDefault: bool)
      ensures Valid()
      ensures this.protocols == protocols && sender == 0 && this.env == env && secureMode == secureDefault
      ensures hanState == Created && discoverHandle.None? && discoverNextTick == 0 && getDevicesNextTick == 0
      ensures discovered == map[] && requests == [] && presence == [] && tasks == [] && !rdPublishPending
      ensures events == [] && virtualDevices == [] && virtualResources == []
    {
      this.protocols := protocols;
      sender := 0;
      this.env := env;
      secureMode := secureDefault;
      hanState := Created;
      discoverHandle := None;
      discoverNextTick := 0;
      getDevicesNextTick := 0;
      discovered := map[];
      requests := [];
      presence := [];
      tasks := [];
      rdPublishPending := false;
      events := [];
      nextIdent := 0;
      virtualDevices := [];
      virtualResources := [];
    }

    /** A plugin's constructor: HAN-FUN only, for the device at `sender`. */
    constructor Plugin(sender: nat, env: Environment, secureDefault: bool)
      requires sender < 65536
      ensures Valid()
      ensures protocols == HfBit && this.sender == sender && this.env == env && secureMode == secureDefault
      ensures hanState == Created && discoverHandle.None? && discoverNextTick == 0 && getDevicesNextTick == 0
      ensures discovered == map[] && requests == [] && presence == [] && tasks == [] && !rdPublishPending
      ensures events == [] && virtualDevices == [] && virtualResources == []
    {
      protocols := HfBit;
      this.sender := sender;
      this.env := env;
      secureMode := secureDefault;
      hanState := Created;
      discoverHandle := None;
      discoverNextTick := 0;
      getDevicesNextTick := 0;
      discovered := map[];
      requests := [];
      presence := [];
      tasks := [];
      rdPublishPending := false;
      events := [];
      nextIdent := 0;
      virtualDevices := [];
      virtualResources := [];
    }

    method SetSecureMode(secure: bool)
      modifies this`secureMode
      ensures secureMode == secure
    {
      secureMode := secure;
    }

    /**
     * ContinueDiscovery on each fetch in turn until the stack accepts one:
     * every attempt issues its request, and only the accepted one keys its
     * context under that request's handle.
     */
    method Continue(fs: seq<Fetch>) returns (accepted: bool)
      modifies this`discovered, this`requests
      ensures Pending(discovered, requests) == Try(old(Pending(discovered, requests)), fs, env.stack).pending
      ensures accepted <==> Try(old(Pending(discovered, requests)), fs, env.stack).accepted.Some?
      ensures |old(requests)| <= |requests| && requests[..|old(requests)|] == old(requests)
    {
      ghost var st := Pending(discovered, requests);
      var k := 0;
      accepted := false;
      while k < |fs| && !accepted
        invariant 0 <= k <= |fs|
        invariant !accepted ==> Try(st, fs, env.stack).pending == Try(Pending(discovered, requests), fs[k..], env.stack).pending
        invariant !accepted ==> (Try(st, fs, env.stack).accepted.Some? <==> Try(Pending(discovered, requests), fs[k..], env.stack).accepted.Some?)
        invariant accepted ==> Try(st, fs, env.stack).pending == Pending(discovered, requests) && Try(st, fs, env.stack).accepted.Some?
        invariant |st.requests| <= |requests| && requests[..|st.requests|] == st.requests
        decreases |fs| - k
      {
        assert fs[k..][0] == fs[k] && fs[k..][1..] == fs[k + 1..];
        match fs[k] {
          case NoFetch =>
          case Fetch(c, uri, addrs, cb) =>
            var n := |requests|;
            requests := requests + [Request(Get, uri, addrs, cb)];
            if env.stack(n) == Resources.StackOk {
              discovered := discovered[n := c];
              accepted := true;
            }
        }
        k := k + 1;
      }
    }

    /**
     * The end of every stage callback: ContinueDiscovery on the fetches in
     * turn, then discovered_.erase(handle).  The table and the tasks stay
     * sound.
     */
    method Finish(handle: nat, fs: seq<Fetch>)
      requires Valid() && handle in discovered && AllGoOn(fs, discovered[handle].ident)
      modifies this`discovered, this`requests
      ensures Valid()
      ensures Pending(discovered, requests) == Complete(Try(old(Pending(discovered, requests)), fs, env.stack).pending, handle)
      ensures InFlight(discovered, old(discovered[handle].ident)) <==> Try(old(Pending(discovered, requests)), fs, env.stack).accepted.Some?
      ensures old(discovered[handle].ident) < nextIdent
      ensures forall i :: 0 <= i < |tasks| && tasks[i].DiscoverTask? ==> tasks[i].context.ident != old(discovered[handle].ident)
    {
      ghost var st := Pending(discovered, requests);
      var _ := Continue(fs);
      discovered := discovered - {handle};
      CompletionKeepsPending(st, fs, env.stack, handle, nextIdent);
      TasksFollowTable(tasks, st.discovered, discovered, nextIdent, rdPublishPending, st.discovered[handle].ident);
    }

    /** UpdatePresenceStatus: Seen on every presence whose id is `sid`. */
    method UpdatePresenceStatus(sid: string, now: int)
      modifies presence
      ensures forall k :: 0 <= k < |presence| ==>
                presence[k].lastTick == if presence[k].id == sid then now else old(presence[k].lastTick)
    {
      var i := 0;
      while i < |presence|
        invariant 0 <= i <= |presence|
        invariant forall k :: 0 <= k < |presence| && presence[k].id != sid ==> presence[k].lastTick == old(presence[k].lastTick)
        invariant forall k :: 0 <= k < i && presence[k].id == sid ==> presence[k].lastTick == now
      {
        if presence[i].id == sid {
          presence[i].Seen(now);
        }
        i := i + 1;
      }
    }

    /** HasSeenBefore: whether an in-flight context is for the device `di`. */
    method HasSeenBefore(di: string) returns (seen: bool)
      ensures seen <==> SeenBefore(discovered, di)
    {
      var keys := discovered.Keys;
      seen := false;
      while keys != {}
        invariant keys <= discovered.Keys
        invariant seen <==> exists h :: h in discovered && h !in keys && discovered[h].device.di == di
        decreases keys
      {
        var h :| h in keys;
        if discovered[h].device.di == di {
          seen := true;
        }
        keys := keys - {h};
      }
    }

    /** IsSecure on a resource payload: marked secure, or an endpoint family with OC_SECURE. */
    method IsSecure(rp: Resources.ResourcePayload) returns (secure: bool)
      ensures secure <==> PayloadIsSecure(rp)
    {
      if rp.secure {
        return true;
      }
      var k := 0;
      while k < |rp.eps|
        invariant 0 <= k <= |rp.eps|
        invariant forall j :: 0 <= j < k ==> !Resources.HasFlag(rp.eps[j].family, Resources.FlagSecure)
      {
        if Resources.HasFlag(rp.eps[k].family, Resources.FlagSecure) {
          return true;
        }
        k := k + 1;
      }
      return false;
    }

    /** HasTranslatableResource: the first resource passing the secure-mode test with an accepted type. */
    method HasTranslatableResource(p: Resources.DiscoveryPayload, accept: string -> bool) returns (found: bool)
      ensures found <==> OffersTranslatable(p, secureMode, accept)
    {
      var i := 0;
      while i < |p.resources|
        invariant 0 <= i <= |p.resources|
        invariant forall a :: 0 <= a < i && (!secureMode || PayloadIsSecure(p.resources[a])) ==> !AcceptsAny(p.resources[a].types, accept)
      {
        var secure := IsSecure(p.resources[i]);
        if !secureMode || secure {
          var any := HasTranslatableType(p.resources[i].types, accept);
          if any {
            return true;
          }
        }
        i := i + 1;
      }
      return false;
    }

    /** ParseIntrospectionPayload: on success, an OCPresence for the device, with the OCF discovery period. */
    method ParseIntrospectionPayload(device: Resources.Device, payload: Payload, now: int) returns (success: bool)
      modifies this`presence
      ensures success == env.parseIntrospection(device, payload)
      ensures !success ==> presence == old(presence)
      ensures success ==> && |presence| == |old(presence)| + 1 && presence[..|old(presence)|] == old(presence)
                          && var p := presence[|old(presence)|];
                             fresh(p) && p.kind == Presence.Ocf && p.id == device.di
                             && p.periodSecs == OcfDiscoverPeriodSecs && p.lastTick == now
    {
      success := env.parseIntrospection(device, payload);
      if success {
        var p := new Presence.Presence.OC(device.di, OcfDiscoverPeriodSecs, now);
        presence := presence + [p];
      }
    }

    /**
     * The rest of one pass of DiscoverCB's loop, after UpdatePresenceStatus:
     * IsSelf, HasSeenBefore and HasTranslatableResource decide whether the
     * sighting gets a new context and a GET of /oic/d.
     */
    method Sighting(origin: Resources.DevAddr, p: Resources.DiscoveryPayload)
      requires Valid() && Resources.AllHaveUri(p.resources)
      modifies this`discovered, this`requests, this`nextIdent
      ensures Valid()
      ensures if Admitted(old(discovered), env.selfId, p, old(secureMode)) then
                && Pending(discovered, requests)
                   == Try(old(Pending(discovered, requests)), [DeviceFetch(NewContext(old(nextIdent), origin, p))], env.stack).pending
                && nextIdent == old(nextIdent) + 1
              else
                discovered == old(discovered) && requests == old(requests) && nextIdent == old(nextIdent)
    {
      var admitted := Admits(p);
      if admitted {
        var device := Resources.NewDevice(origin, p);
        var c := Context(nextIdent, device, Empty, Empty, 0, None);
        assert c == NewContext(nextIdent, origin, p);
        StartDiscovery(c);
      }
    }

    /** A new DiscoverContext, with the next ident, and the GET of /oic/d that starts its discovery. */
    method StartDiscovery(c: Context)
      requires Valid() && c.ident == nextIdent
      modifies this`discovered, this`requests, this`nextIdent
      ensures Valid()
      ensures Pending(discovered, requests) == Try(old(Pending(discovered, requests)), [DeviceFetch(c)], env.stack).pending
      ensures nextIdent == old(nextIdent) + 1
    {
      FreshContextKeepsValid(Pending(discovered, requests), tasks, nextIdent, rdPublishPending, DeviceFetch(c), env.stack);
      nextIdent := nextIdent + 1;
      var _ := Continue([DeviceFetch(c)]);
    }

    /** IsSelf, HasSeenBefore and HasTranslatableResource: whether the sighting `p` starts a discovery. */
    method Admits(p: Resources.DiscoveryPayload) returns (admitted: bool)
      ensures admitted <==> Admitted(discovered, env.selfId, p, secureMode)
    {
      var seen := HasSeenBefore(p.sid);
      var translatable := HasTranslatableResource(p, Interfaces.TranslateResourceType);
      admitted := p.sid != env.selfId && !seen && translatable;
    }

    /** DiscoverCB: each discovery payload of a successful response is one sighting, in order. */
    method DiscoverCB(response: Option<Response>, now: int)
      requires Valid() && AllAddressable(DiscoveredPayloads(response))
      modifies this`discovered, this`requests, this`nextIdent, presence
      ensures Valid()
      ensures response.Some? ==>
                (Pending(discovered, requests), nextIdent)
                == Sightings(old(Pending(discovered, requests)), old(nextIdent), response.value.devAddr,
                             DiscoveredPayloads(response), 0, env.selfId, old(secureMode), env.stack)
      ensures response.None? ==> discovered == old(discovered) && requests == old(requests) && nextIdent == old(nextIdent)
      ensures forall k :: 0 <= k < |presence| ==>
                presence[k].lastTick == if SeenWithin(DiscoveredPayloads(response), |DiscoveredPayloads(response)|, presence[k].id)
                                        then now else old(presence[k].lastTick)
    {
      var payloads := DiscoveredPayloads(response);
      if response.None? {
        return;
      }
      var origin := response.value.devAddr;
      ghost var goal := Sightings(Pending(discovered, requests), nextIdent, origin, payloads, 0, env.selfId, secureMode, env.stack);
      var k := 0;
      while k < |payloads|
        invariant 0 <= k <= |payloads|
        invariant Valid()
        invariant goal == Sightings(Pending(discovered, requests), nextIdent, origin, payloads, k, env.selfId, secureMode, env.stack)
        invariant forall j :: 0 <= j < |presence| ==>
                    presence[j].lastTick == if SeenWithin(payloads, k, presence[j].id) then now else old(presence[j].lastTick)
      {
        ghost var st := Pending(discovered, requests);
        ghost var n := nextIdent;
        See(origin, payloads[k], now);
        SightingsNext(st, n, origin, payloads, k, env.selfId, secureMode, env.stack, Pending(discovered, requests), nextIdent);
        SeenWithinNext(payloads, k);
        k := k + 1;
      }
    }

    /** One pass of DiscoverCB's loop: the presence of the sighted device is refreshed, then the sighting handled. */
    method See(origin: Resources.DevAddr, p: Resources.DiscoveryPayload, now: int)
      requires Valid() && Resources.AllHaveUri(p.resources)
      modifies this`discovered, this`requests, this`nextIdent, presence
      ensures Valid()
      ensures if Admitted(old(discovered), env.selfId, p, old(secureMode)) then
                && Pending(discovered, requests)
                   == Try(old(Pending(discovered, requests)), [DeviceFetch(NewContext(old(nextIdent), origin, p))], env.stack).pending
                && nextIdent == old(nextIdent) + 1
              else
                discovered == old(discovered) && requests == old(requests) && nextIdent == old(nextIdent)
      ensures forall k :: 0 <= k < |presence| ==>
                presence[k].lastTick == if presence[k].id == p.sid then now else old(presence[k].lastTick)
    {
      UpdatePresenceStatus(p.sid, now);
      Sighting(origin, p);
    }

    /**
     * GetDeviceCB: after /oic/d the seen state of the device's piid decides.
     * An unseen virtual device is deferred to a DiscoverTask ten seconds on,
     * SEEN_NATIVE ends the branch, and otherwise it goes on to /oic/p, after
     * kill_cb for a native device seen as virtual.
     */
    method GetDeviceCB(handle: nat, response: Option<Response>, now: int)
      requires Valid() && handle < |requests| && requests[handle].cb == OnDevice
      modifies this`discovered, this`requests, this`tasks, this`events
      ensures Valid()
      ensures handle !in old(discovered) ==>
                discovered == old(discovered) && requests == old(requests) && tasks == old(tasks) && events == old(events)
      ensures handle in old(discovered) ==>
                && Pending(discovered, requests)
                   == Complete(Try(old(Pending(discovered, requests)),
                                   if DeviceStepFor(response, env.seenState, Resources.IsVirtual(old(discovered[handle]).device)).GoOn?
                                   then [PlatformFetch(old(discovered[handle]))] else [],
                                   env.stack).pending, handle)
                && tasks == old(tasks)
                            + (if DeviceStepFor(response, env.seenState, Resources.IsVirtual(old(discovered[handle]).device)) == Defer
                               then [DiscoverTask(now + VirtualDelaySecs, DevicePiid(response).GetOr(""), old(discovered[handle]))]
                               else [])
                && events == old(events)
                             + (if DeviceStepFor(response, env.seenState, Resources.IsVirtual(old(discovered[handle]).device)) == GoOn(true)
                                then [Kill(DevicePiid(response).value)] else [])
    {
      if handle !in discovered {
        return;
      }
      var c := discovered[handle];
      var piid := DevicePiid(response);
      var step := DeviceStepFor(response, env.seenState, Resources.IsVirtual(c.device));
      TakeDeviceStep(handle, step, piid, now);
    }

    /**
     * The rest of GetDeviceCB once the step is known: kill_cb on the piid
     * for GoOn(true), the context's completion, and on Defer the
     * DiscoverTask ten seconds on.
     */
    method TakeDeviceStep(handle: nat, step: DeviceStep, piid: Option<string>, now: int)
      requires Valid() && handle in discovered && (step == GoOn(true) ==> piid.Some?)
      modifies this`discovered, this`requests, this`tasks, this`events
      ensures Valid()
      ensures Pending(discovered, requests)
              == Complete(Try(old(Pending(discovered, requests)),
                              if step.GoOn? then [PlatformFetch(old(discovered[handle]))] else [], env.stack).pending, handle)
      ensures tasks == old(tasks) + (if step == Defer then [DiscoverTask(now + VirtualDelaySecs, piid.GetOr(""), old(discovered[handle]))] else [])
      ensures events == old(events) + (if step == GoOn(true) then [Kill(piid.value)] else [])
    {
      var c := discovered[handle];
      if step == GoOn(true) {
        events := events + [Kill(piid.value)];
      }
      Finish(handle, if step.GoOn? then [PlatformFetch(c)] else []);
      if step == Defer {
        Postpone(DiscoverTask(now + VirtualDelaySecs, piid.GetOr(""), c));
      }
    }

    /** tasks_.push_back of a DiscoverTask whose context is out of flight and held by no other task. */
    method Postpone(t: Task)
      requires Valid() && t.DiscoverTask? && t.context.ident < nextIdent && !InFlight(discovered, t.context.ident)
      requires forall i :: 0 <= i < |tasks| && tasks[i].DiscoverTask? ==> tasks[i].context.ident != t.context.ident
      modifies this`tasks
      ensures Valid() && tasks == old(tasks) + [t]
    {
      DeferKeepsTasks(tasks, discovered, nextIdent, rdPublishPending, t);
      tasks := tasks + [t];
    }

    /** GetPlatformCB: with a representation, on to the configuration stages. */
    method GetPlatformCB(handle: nat, response: Option<Response>)
      requires Valid() && handle < |requests| && requests[handle].cb == OnPlatform
      modifies this`discovered, this`requests
      ensures Valid()
      ensures handle !in old(discovered) ==> discovered == old(discovered) && requests == old(requests)
      ensures handle in old(discovered) ==>
                Pending(discovered, requests)
                == Complete(Try(old(Pending(discovered, requests)),
                                AfterPayload(RepPayload(response), ConfigurationStage(old(discovered[handle]), old(secureMode))),
                                env.stack).pending, handle)
    {
      if handle in discovered {
        Finish(handle, AfterPayload(RepPayload(response), ConfigurationStage(discovered[handle], secureMode)));
      }
    }

    /** GetDeviceConfigurationCB: with a representation, on to platform configuration. */
    method GetDeviceConfigurationCB(handle: nat, response: Option<Response>)
      requires Valid() && handle < |requests| && requests[handle].cb == OnDeviceConfiguration
      modifies this`discovered, this`requests
      ensures Valid()
      ensures handle !in old(discovered) ==> discovered == old(discovered) && requests == old(requests)
      ensures handle in old(discovered) ==>
                Pending(discovered, requests)
                == Complete(Try(old(Pending(discovered, requests)),
                                AfterPayload(RepPayload(response), PlatformConfigurationStage(old(discovered[handle]), old(secureMode))),
                                env.stack).pending, handle)
    {
      if handle in discovered {
        Finish(handle, AfterPayload(RepPayload(response), PlatformConfigurationStage(discovered[handle], secureMode)));
      }
    }

    /** GetPlatformConfigurationCB: on to the collections whatever the response. */
    method GetPlatformConfigurationCB(handle: nat, response: Option<Response>)
      requires Valid() && handle < |requests| && requests[handle].cb == OnPlatformConfiguration
      modifies this`discovered, this`requests
      ensures Valid()
      ensures handle !in old(discovered) ==> discovered == old(discovered) && requests == old(requests)
      ensures handle in old(discovered) ==>
                Pending(discovered, requests)
                == Complete(Try(old(Pending(discovered, requests)), [CollectionStage(old(discovered[handle]), 0, old(secureMode))],
                                env.stack).pending, handle)
    {
      if handle in discovered {
        Finish(handle, [CollectionStage(discovered[handle], 0, secureMode)]);
      }
    }

    /** GetCollectionCB: SetCollectionLinks on the response, then the next collection or introspection. */
    method GetCollectionCB(handle: nat, response: Option<Response>)
      requires Valid() && handle < |requests| && requests[handle].cb == OnCollection
      modifies this`discovered, this`requests
      ensures Valid()
      ensures handle !in old(discovered) ==> discovered == old(discovered) && requests == old(requests)
      ensures handle in old(discovered) ==>
                Pending(discovered, requests)
                == Complete(Try(old(Pending(discovered, requests)), CollectionPlan(old(discovered[handle]), response, old(secureMode)),
                                env.stack).pending, handle)
    {
      if handle !in discovered {
        return;
      }
      var c := discovered[handle];
      assert Ready(requests[handle].cb, c);
      if RepPayload(response).None? {
        Finish(handle, []);
        return;
      }
      var rs := c.device.resources;
      var uri := rs[c.rit].uri;
      assert Resources.FindResourceFromUri(rs, uri) < |rs|;
      var success, out := Resources.SetCollectionLinks(rs, uri, [response.value.body.value.rep] + response.value.body.value.next);
      if !success {
        Finish(handle, []);
        return;
      }
      Finish(handle, [CollectionStage(c.(device := c.device.(resources := out)), ResumeAsWritten(c.rit), secureMode)]);
    }

    /** GetIntrospectionCB: a GET of each coap or coaps url in turn, then the inference fallback. */
    method GetIntrospectionCB(handle: nat, response: Option<Response>)
      requires Valid() && handle < |requests| && requests[handle].cb == OnIntrospection
      modifies this`discovered, this`requests
      ensures Valid()
      ensures handle !in old(discovered) ==> discovered == old(discovered) && requests == old(requests)
      ensures handle in old(discovered) ==>
                Pending(discovered, requests)
                == Complete(Try(old(Pending(discovered, requests)), IntrospectionPlan(old(discovered[handle]), response, old(secureMode)),
                                env.stack).pending, handle)
    {
      if handle in discovered {
        Finish(handle, IntrospectionPlan(discovered[handle], response, secureMode));
      }
    }

    /** GetIntrospectionDataCB: a document that parses ends the walk and adds the presence; anything else falls back to inference. */
    method GetIntrospectionDataCB(handle: nat, response: Option<Response>, now: int)
      requires Valid() && handle < |requests| && requests[handle].cb == OnIntrospectionData
      modifies this`discovered, this`requests, this`presence
      ensures Valid()
      ensures handle !in old(discovered) ==> discovered == old(discovered) && requests == old(requests) && presence == old(presence)
      ensures handle in old(discovered) ==>
                var c := old(discovered[handle]);
                var payload := RepPayload(response);
                var parsed := payload.Some? && env.parseIntrospection(c.device, payload.value);
                && Pending(discovered, requests)
                   == Complete(Try(old(Pending(discovered, requests)), IntrospectionDataPlan(c, payload, parsed, old(secureMode)),
                                   env.stack).pending, handle)
                && (!parsed ==> presence == old(presence))
                && (parsed ==> |presence| == |old(presence)| + 1 && presence[..|old(presence)|] == old(presence)
                               && fresh(presence[|old(presence)|]) && presence[|old(presence)|].id == c.device.di)
    {
      if handle !in discovered {
        return;
      }
      var c := discovered[handle];
      var payload := RepPayload(response);
      var parsed := false;
      if payload.Some? {
        parsed := ParseIntrospectionPayload(c.device, payload.value, now);
      }
      Finish(handle, IntrospectionDataPlan(c, payload, parsed, secureMode));
    }

    /** The end of a walk: the document inference built is parsed, and a presence is tracked when that succeeds. */
    method EndWalk(done: Option<Context>, now: int)
      requires Valid()
      modifies this`presence
      ensures Valid()
      ensures var parsed := done.Some? && env.parseIntrospection(done.value.device, IntrospectionDocument(done.value));
              && (!parsed ==> presence == old(presence))
              && (parsed ==> |presence| == |old(presence)| + 1 && presence[..|old(presence)|] == old(presence)
                             && fresh(presence[|old(presence)|]) && presence[|old(presence)|].id == done.value.device.di)
    {
      if done.Some? {
        var _ := ParseIntrospectionPayload(done.value.device, IntrospectionDocument(done.value), now);
      }
    }

    /**
     * GetCB: the definition and path for the pair at `it`, then the GET of
     * the next pair; at End() the assembled document goes to
     * ParseIntrospectionPayload.
     */
    method GetCB(handle: nat, response: Option<Response>, now: int)
      requires Valid() && handle < |requests| && requests[handle].cb == OnGet
      modifies this`discovered, this`requests, this`presence
      ensures Valid()
      ensures handle !in old(discovered) ==> discovered == old(discovered) && requests == old(requests) && presence == old(presence)
      ensures handle in old(discovered) ==>
                var c := old(discovered[handle]);
                var payload := RepPayload(response);
                var done := WalkDone(c, payload, old(secureMode));
                var parsed := done.Some? && env.parseIntrospection(done.value.device, IntrospectionDocument(done.value));
                && Pending(discovered, requests)
                   == Complete(Try(old(Pending(discovered, requests)), GetPlan(c, payload, old(secureMode)), env.stack).pending, handle)
                && (!parsed ==> presence == old(presence))
                && (parsed ==> |presence| == |old(presence)| + 1 && presence[..|old(presence)|] == old(presence)
                               && fresh(presence[|old(presence)|]) && presence[|old(presence)|].id == done.value.device.di)
    {
      if handle !in discovered {
        return;
      }
      var c := discovered[handle];
      assert Ready(requests[handle].cb, c);
      var payload := RepPayload(response);
      var plan := GetPlan(c, payload, secureMode);
      var done := WalkDone(c, payload, secureMode);
      Finish(handle, plan);
      EndWalk(done, now);
    }

    /** The discovered_ half of Destroy(id): every context for the device `id` is deleted. */
    method DropDevice(id: string)
      modifies this`discovered
      ensures discovered == WithoutDevices(old(discovered), [id])
    {
      ghost var d0 := discovered;
      var keys := discovered.Keys;
      while keys != {}
        invariant keys <= d0.Keys
        invariant forall h :: h in discovered <==> h in d0 && (h in keys || d0[h].device.di != id)
        invariant forall h :: h in discovered ==> discovered[h] == d0[h]
        decreases keys
      {
        var h :| h in keys;
        if discovered[h].device.di == id {
          discovered := discovered - {h};
        }
        keys := keys - {h};
      }
      assert discovered == WithoutDevices(d0, [id]);
    }

    /** The presence_ half of Destroy(id): the erase loop over the vector. */
    method DropPresence(id: string)
      modifies this`presence
      ensures presence == WithoutIds(old(presence), [id])
    {
      ghost var p0 := presence;
      ghost var j := 0;
      var i := 0;
      while i < |presence|
        invariant 0 <= i <= |presence| && 0 <= j <= |p0|
        invariant presence[..i] == WithoutIds(p0[..j], [id]) && presence[i..] == p0[j..]
        decreases |presence| - i
      {
        SkipSlices(presence, i);
        SkipSlices(p0, j);
        WithoutIdsStep(p0, j, [id]);
        if presence[i].id == id {
          EraseSlices(presence, i);
          presence := presence[..i] + presence[i + 1..];
        } else {
          i := i + 1;
        }
        j := j + 1;
      }
      assert p0[..j] == p0 && presence[..i] == presence;
    }

    /** Destroy(id): the contexts for the device and the presences with that id go, the rest stay in order. */
    method Destroy(id: string)
      requires Valid()
      modifies this`discovered, this`presence
      ensures Valid()
      ensures discovered == WithoutDevices(old(discovered), [id])
      ensures presence == WithoutIds(old(presence), [id])
    {
      ghost var d0 := discovered;
      DropDevice(id);
      DropKeepsPending(d0, discovered, requests, requests, nextIdent);
      TasksFollowTable(tasks, d0, discovered, nextIdent, rdPublishPending, nextIdent);
      DropPresence(id);
    }

    /** Destroy(address): the virtual resources, then the virtual device objects, at that HAN-FUN address go. */
    method DestroyAddress(address: nat)
      modifies this`virtualResources, this`virtualDevices
      ensures virtualResources == ResourcesWithout(old(virtualResources), address)
      ensures virtualDevices == WithoutAddress(old(virtualDevices), address)
    {
      ghost var r0 := virtualResources;
      ghost var k := 0;
      var vr := 0;
      while vr < |virtualResources|
        invariant 0 <= vr <= |virtualResources| && 0 <= k <= |r0|
        invariant virtualResources[..vr] == ResourcesWithout(r0[..k], address) && virtualResources[vr..] == r0[k..]
        invariant virtualDevices == old(virtualDevices)
        decreases |virtualResources| - vr
      {
        SkipSlices(virtualResources, vr);
        SkipSlices(r0, k);
        ResourcesWithoutStep(r0, k, address);
        if virtualResources[vr] == address {
          EraseSlices(virtualResources, vr);
          virtualResources := virtualResources[..vr] + virtualResources[vr + 1..];
        } else {
          vr := vr + 1;
        }
        k := k + 1;
      }
      assert r0[..k] == r0 && virtualResources[..vr] == virtualResources;
      ghost var v0 := virtualDevices;
      ghost var j := 0;
      var i := 0;
      while i < |virtualDevices|
        invariant 0 <= i <= |virtualDevices| && 0 <= j <= |v0|
        invariant virtualDevices[..i] == WithoutAddress(v0[..j], address) && virtualDevices[i..] == v0[j..]
        invariant virtualResources == ResourcesWithout(r0, address)
        decreases |virtualDevices| - i
      {
        SkipSlices(virtualDevices, i);
        SkipSlices(v0, j);
        WithoutAddressStep(v0, j, address);
        if virtualDevices[i].address == address {
          EraseSlices(virtualDevices, i);
          virtualDevices := virtualDevices[..i] + virtualDevices[i + 1..];
        } else {
          i := i + 1;
        }
        j := j + 1;
      }
      assert v0[..j] == v0 && virtualDevices[..i] == virtualDevices;
    }

    /** Process's first loop: the ids of the presences that are not present at `now`. */
    method AbsentPresences(now: int) returns (absent: seq<string>)
      ensures absent == AbsentIds(presence, now)
    {
      absent := [];
      var i := 0;
      while i < |presence|
        invariant 0 <= i <= |presence|
        invariant absent == AbsentIds(presence[..i], now)
      {
        assert presence[..i + 1][..i] == presence[..i];
        if !presence[i].IsPresent(now) {
          absent := absent + [presence[i].id];
        }
        i := i + 1;
      }
      assert presence[..i] == presence;
    }

    /** Process's second loop: Destroy on each absent id in turn. */
    method DestroyAbsent(now: int)
      requires Valid()
      modifies this`discovered, this`presence
      ensures Valid()
      ensures discovered == WithoutDevices(old(discovered), old(AbsentIds(presence, now)))
      ensures presence == WithoutIds(old(presence), old(AbsentIds(presence, now)))
    {
      ghost var d0 := discovered;
      ghost var p0 := presence;
      var absent := AbsentPresences(now);
      WithoutNoIds(p0);
      assert absent[..0] == [];
      var k := 0;
      while k < |absent|
        invariant Valid() && 0 <= k <= |absent|
        invariant discovered == WithoutDevices(d0, absent[..k])
        invariant presence == WithoutIds(p0, absent[..k])
      {
        SkipSlices(absent, k);
        WithoutIdsTwice(p0, absent[..k], [absent[k]]);
        WithoutDevicesTwice(d0, absent[..k], [absent[k]]);
        Destroy(absent[k]);
        k := k + 1;
      }
      assert absent[..k] == absent;
    }

    /** RDPublish: the pending publication is pushed back to now + 1, or one is queued for then. */
    method RDPublish(now: int)
      requires Valid()
      modifies this`tasks, this`rdPublishPending
      ensures Valid()
      ensures tasks == Republished(old(tasks), old(rdPublishPending), now + 1) && rdPublishPending
    {
      RepublishKeepsOne(tasks, discovered, nextIdent, rdPublishPending, now + 1);
      if rdPublishPending {
        var k := RDPublishIndex(tasks);
        tasks := tasks[k := RDPublishTask(now + 1)];
      } else {
        tasks := tasks + [RDPublishTask(now + 1)];
        rdPublishPending := true;
      }
    }

    /** RDPublishTask::Run: the introspection data is stored and published, and the pointer cleared. */
    method RunRDPublishTask()
      modifies this`events, this`rdPublishPending
      ensures events == old(events) + [Published(StoredIntrospection(env.resourcesKnown, env.encode))]
      ensures !rdPublishPending
    {
      var stored := Introspection.SetIntrospectionData("TITLE", "VERSION", env.resourcesKnown, env.encode);
      events := events + [Published(stored)];
      rdPublishPending := false;
    }

    /** DiscoverTask::Run's loop over discovered_: whether some in-flight entry holds the context. */
    method LookupContext(ident: nat) returns (found: bool)
      ensures found <==> InFlight(discovered, ident)
    {
      var handles := discovered.Keys;
      found := false;
      while handles != {}
        invariant handles <= discovered.Keys
        invariant found <==> exists h :: h in discovered.Keys - handles && discovered[h].ident == ident
        decreases handles
      {
        var h :| h in handles;
        if discovered[h].ident == ident {
          found := true;
        }
        handles := handles - {h};
      }
    }

    /**
     * DiscoverTask::Run: the lookup of its context, then GetSeenState on the
     * piid and on to /oic/p; without the context it only deletes it.
     */
    method RunDiscoverTask(t: Task)
      requires t.DiscoverTask?
      modifies this`discovered, this`requests, this`events
      ensures var r := TaskEffectAsWritten(old(Pending(discovered, requests)), t, env.seenState, env.stack,
                                           Published(StoredIntrospection(env.resourcesKnown, env.encode)));
              Pending(discovered, requests) == r.0 && events == old(events) + r.1
    {
      var found := LookupContext(t.context.ident);
      if !found {
        return;
      }
      var isVirtual := Resources.IsVirtual(t.context.device);
      var state := SeenStateOf(env.seenState, Some(t.piid));
      if state == SeenVirtual && !isVirtual {
        events := events + [Kill(t.piid)];
      }
      var _ := Continue([PlatformFetch(t.context)]);
    }

    /** One pass of Process's task loop on a due task: Run, then erase it from tasks_. */
    method RunTaskAt(i: nat)
      requires Valid() && i < |tasks|
      modifies this`discovered, this`requests, this`tasks, this`events, this`rdPublishPending
      ensures Valid()
      ensures tasks == RemoveTask(old(tasks), i)
      ensures var r := TaskEffectAsWritten(old(Pending(discovered, requests)), old(tasks[i]), env.seenState, env.stack,
                                           Published(StoredIntrospection(env.resourcesKnown, env.encode)));
              Pending(discovered, requests) == r.0 && events == old(events) + r.1
    {
      var t := tasks[i];
      TaskAsWrittenKeepsValid(Pending(discovered, requests), tasks, i, nextIdent, rdPublishPending, env.seenState, env.stack,
                              Published(StoredIntrospection(env.resourcesKnown, env.encode)));
      tasks := RemoveTask(tasks, i);
      if t.RDPublishTask? {
        RunRDPublishTask();
      } else {
        RunDiscoverTask(t);
      }
    }

    /** Process's task loop: every task due at `now` runs and is erased, in list order; the rest stay. */
    method RunDueTasks(now: int)
      requires Valid()
      modifies this`discovered, this`requests, this`tasks, this`events, this`rdPublishPending
      ensures Valid()
      ensures tasks == NotDue(old(tasks), now)
      ensures var d := Drain(old(Pending(discovered, requests)), old(tasks), now, env.seenState, env.stack,
                             Published(StoredIntrospection(env.resourcesKnown, env.encode)));
              Pending(discovered, requests) == d.0 && events == old(events) + d.1
    {
      ghost var published := Published(StoredIntrospection(env.resourcesKnown, env.encode));
      ghost var t0 := tasks;
      ghost var st0 := Pending(discovered, requests);
      ghost var e0 := events;
      ghost var ran := (st0, []);
      ghost var j := 0;
      var i := 0;
      while i < |tasks|
        invariant Valid()
        invariant 0 <= i <= |tasks| && 0 <= j <= |t0|
        invariant tasks[..i] == NotDue(t0[..j], now) && tasks[i..] == t0[j..]
        invariant ran == Drain(st0, t0[..j], now, env.seenState, env.stack, published)
        invariant Pending(discovered, requests) == ran.0 && events == e0 + ran.1
        decreases |tasks| - i
      {
        DrainStep(st0, t0, j, now, env.seenState, env.stack, published);
        if now >= tasks[i].tick {
          WalkRun(t0, j, now, tasks, i);
          ghost var r := TaskEffectAsWritten(ran.0, t0[j], env.seenState, env.stack, published);
          RunTaskAt(i);
          EventsAssoc(e0, ran.1, r.1);
          ran := (r.0, ran.1 + r.1);
        } else {
          WalkSkip(t0, j, now, tasks, i);
          i := i + 1;
        }
        j := j + 1;
      }
      WalkEnd(t0, j, now, tasks, i);
      assert t0[..j] == t0;
    }

    /** Process's HAN-FUN half: CREATED waits for the client, STARTED asks for the device table when due. */
    method ProcessHanFun(now: int, initialized: bool)
      modifies this`hanState, this`getDevicesNextTick, this`events
      ensures var r := HanFunStep(old(hanState), old(getDevicesNextTick), sender, initialized, now);
              if protocols & HfBit != 0 then
                hanState == r.state && getDevicesNextTick == r.nextTick && events == old(events) + r.sent
              else
                hanState == old(hanState) && getDevicesNextTick == old(getDevicesNextTick) && events == old(events)
    {
      if protocols & HfBit != 0 {
        match hanState {
          case Created =>
            if initialized {
              hanState := Started;
            }
          case Started =>
            if now >= getDevicesNextTick {
              if sender == 0 {
                events := events + [DeviceTableRequested(0, TablePage)];
              } else {
                events := events + [DeviceTableRequested((sender - 1) % 256, 1)];
              }
              getDevicesNextTick := now + HfDiscoverPeriodSecs;
            }
          case Running =>
        }
      }
    }

    /**
     * Process's OCF half: when due, the previous discovery is cancelled and
     * a new one issued to /oic/res with no destination, its handle kept
     * whatever the stack answers.
     */
    method ProcessDiscovery(now: int)
      requires Valid()
      modifies this`discoverHandle, this`requests, this`events, this`discoverNextTick
      ensures Valid()
      ensures if protocols & OcBit != 0 && now >= old(discoverNextTick) then
                && events == old(events) + (if old(discoverHandle).Some? then [Cancelled(old(discoverHandle).value)] else [])
                && requests == old(requests) + [Request(Discover, WellKnownUri, [], OnDiscover)]
                && discoverHandle == Some(|old(requests)|)
                && discoverNextTick == now + OcfDiscoverPeriodSecs
              else
                && events == old(events) && requests == old(requests)
                && discoverHandle == old(discoverHandle) && discoverNextTick == old(discoverNextTick)
    {
      if protocols & OcBit != 0 && now >= discoverNextTick {
        if discoverHandle.Some? {
          events := events + [Cancelled(discoverHandle.value)];
          discoverHandle := None;
        }
        IssueKeepsPending(discovered, requests, Request(Discover, WellKnownUri, [], OnDiscover), nextIdent);
        discoverHandle := Some(|requests|);
        requests := requests + [Request(Discover, WellKnownUri, [], OnDiscover)];
        discoverNextTick := now + OcfDiscoverPeriodSecs;
      }
    }

    /**
     * Process: the HAN-FUN step, the OCF discovery step, Destroy of every
     * absent presence, then the due tasks, which see the table as Destroy
     * left it and the requests with the new discovery; it always returns true.
     */
    method Process(now: int, hanInitialized: bool) returns (ok: bool)
      requires Valid()
      modifies this`hanState, this`getDevicesNextTick, this`events, this`discoverHandle, this`requests,
               this`discoverNextTick, this`discovered, this`presence, this`tasks, this`rdPublishPending
      ensures Valid() && ok
      ensures var r := HanFunStep(old(hanState), old(getDevicesNextTick), sender, hanInitialized, now);
              && hanState == (if HanFunOn(protocols) then r.state else old(hanState))
              && getDevicesNextTick == (if HanFunOn(protocols) then r.nextTick else old(getDevicesNextTick))
      ensures var due := DiscoveryDue(protocols, old(discoverNextTick), now);
              && discoverHandle == (if due then Some(|old(requests)|) else old(discoverHandle))
              && discoverNextTick == (if due then now + OcfDiscoverPeriodSecs else old(discoverNextTick))
      ensures var due := DiscoveryDue(protocols, old(discoverNextTick), now);
              var d := Drain(Pending(WithoutDevices(old(discovered), old(AbsentIds(presence, now))), WithDiscovery(old(requests), due)),
                             old(tasks), now, env.seenState, env.stack, Published(StoredIntrospection(env.resourcesKnown, env.encode)));
              && Pending(discovered, requests) == d.0
              && events == old(events) + TickCalls(protocols, HanFunStep(old(hanState), old(getDevicesNextTick), sender, hanInitialized, now),
                                                   due, old(discoverHandle)) + d.1
      ensures presence == WithoutIds(old(presence), old(AbsentIds(presence, now)))
      ensures tasks == NotDue(old(tasks), now)
      ensures rdPublishPending <==> PublicationLeft(old(tasks), old(rdPublishPending), now)
    {
      ghost var absent := AbsentIds(presence, now);
      Tick(now, hanInitialized);
      assert AbsentIds(presence, now) == absent;
      Sweep(now);
      ok := true;
    }

    /**
     * The first half of Process: the HAN-FUN step, then the OCF discovery
     * step, each under its protocol bit.
     */
    method Tick(now: int, hanInitialized: bool)
      requires Valid()
      modifies this`hanState, this`getDevicesNextTick, this`events, this`discoverHandle, this`requests, this`discoverNextTick
      ensures Valid()
      ensures var r := HanFunStep(old(hanState), old(getDevicesNextTick), sender, hanInitialized, now);
              && hanState == (if HanFunOn(protocols) then r.state else old(hanState))
              && getDevicesNextTick == (if HanFunOn(protocols) then r.nextTick else old(getDevicesNextTick))
      ensures var due := DiscoveryDue(protocols, old(discoverNextTick), now);
              && requests == WithDiscovery(old(requests), due)
              && discoverHandle == (if due then Some(|old(requests)|) else old(discoverHandle))
              && discoverNextTick == (if due then now + OcfDiscoverPeriodSecs else old(discoverNextTick))
      ensures events == old(events) + TickCalls(protocols, HanFunStep(old(hanState), old(getDevicesNextTick), sender, hanInitialized, now),
                                                DiscoveryDue(protocols, old(discoverNextTick), now), old(discoverHandle))
    {
      ProcessHanFun(now, hanInitialized);
      ghost var e1 := events;
      ProcessDiscovery(now);
      assert events == e1 + (if DiscoveryDue(protocols, old(discoverNextTick), now) && old(discoverHandle).Some?
                             then [Cancelled(old(discoverHandle).value)] else []);
    }

    /**
     * The rest of Process: Destroy of every absent presence, then the due
     * tasks over the table Destroy left; the RD publication stays pending
     * exactly when it was queued and is not yet due.
     */
    method Sweep(now: int)
      requires Valid()
      modifies this`discovered, this`presence, this`requests, this`tasks, this`events, this`rdPublishPending
      ensures Valid()
      ensures presence == WithoutIds(old(presence), old(AbsentIds(presence, now)))
      ensures var d := Drain(Pending(WithoutDevices(old(discovered), old(AbsentIds(presence, now))), old(requests)), old(tasks), now,
                             env.seenState, env.stack, Published(StoredIntrospection(env.resourcesKnown, env.encode)));
              Pending(discovered, requests) == d.0 && events == old(events) + d.1
      ensures tasks == NotDue(old(tasks), now)
      ensures rdPublishPending <==> PublicationLeft(old(tasks), old(rdPublishPending), now)
    {
      ghost var t0 := tasks;
      PublicationLeftExact(tasks, discovered, nextIdent, rdPublishPending, now);
      DestroyAbsent(now);
      assert tasks == t0;
      RunDueTasks(now);
    }

    /** GetDeviceTableCB's switch on one row's seen state: exec_cb_, after DestroyPiid for a virtual one. */
    method StartRow(piid: Option<string>, rowSender: nat)
      modifies this`events
      ensures events == old(events) + RowEvents(piid, SeenStateOf(env.seenState, piid), rowSender, old(secureMode))
    {
      if piid.Some? {
        match SeenStateOf(env.seenState, piid) {
          case NotSeen =>
            events := events + [Exec(piid.value, rowSender, secureMode, false)];
          case SeenNative =>
          case SeenVirtual =>
            events := events + [Kill(piid.value), Exec(piid.value, rowSender, secureMode, false)];
        }
      }
    }

    /**
     * GetDeviceTableCB on the manager, given each row's piid: the bridge
     * processes for the rows, then the next page if this one was full.
     */
    method StartTableProcesses(devIndex: nat, piids: seq<Option<string>>)
      requires devIndex < 256 && |piids| < 256
      modifies this`events
      ensures events == old(events) + TableEvents(piids, |piids|, devIndex, env.seenState, old(secureMode))
                        + (if |piids| == TablePage then [DeviceTableRequested((devIndex + TablePage) % 256, TablePage)] else [])
    {
      ghost var e0 := events;
      var i := 0;
      while i < |piids|
        invariant 0 <= i <= |piids|
        invariant events == e0 + TableEvents(piids, i, devIndex, env.seenState, secureMode)
      {
        TableEventsStep(piids, i, devIndex, env.seenState, secureMode);
        StartRow(piids[i], devIndex + i + 1);
        EventsAssoc(e0, TableEvents(piids, i, devIndex, env.seenState, secureMode),
                    RowEvents(piids[i], SeenStateOf(env.seenState, piids[i]), devIndex + i + 1, secureMode));
        i := i + 1;
      }
      if |piids| == TablePage {
        events := events + [DeviceTableRequested((devIndex + TablePage) % 256, TablePage)];
      }
    }

    /**
     * GetDeviceTableCB on a plugin: the one row becomes a virtual device, a
     * presence and a virtual resource. Creating the resource always succeeds
     * and runs its create callback, RDPublish, so a publication is queued or
     * pushed back to a second from now.
     */
    method Virtualize(row: DeviceRecord, propertiesOk: bool, now: int)
      requires WellFormed(row) && Valid()
      modifies this`virtualDevices, this`presence, this`virtualResources, this`hanState, this`tasks, this`rdPublishPending
      ensures Valid()
      ensures virtualDevices == old(virtualDevices) + [VirtualDevice(row.id, propertiesOk)]
      ensures |presence| == |old(presence)| + 1 && presence[..|old(presence)|] == old(presence)
      ensures fresh(presence[|old(presence)|]) && presence[|old(presence)|].kind == Presence.HanFun
      ensures presence[|old(presence)|].id == Text.NatToDecimal(row.id) && presence[|old(presence)|].lastTick == now
      ensures tasks == Republished(old(tasks), old(rdPublishPending), now + 1) && rdPublishPending
      ensures virtualResources == old(virtualResources) + [row.id]
      ensures hanState == Running
    {
      AddVirtualDevice(row, propertiesOk, now);
      RDPublish(now);
    }

    /** Virtualize apart from the create callback: the device, its presence and its resource, and RUNNING. */
    method AddVirtualDevice(row: DeviceRecord, propertiesOk: bool, now: int)
      requires WellFormed(row)
      modifies this`virtualDevices, this`presence, this`virtualResources, this`hanState
      ensures virtualDevices == old(virtualDevices) + [VirtualDevice(row.id, propertiesOk)]
      ensures |presence| == |old(presence)| + 1 && presence[..|old(presence)|] == old(presence)
      ensures fresh(presence[|old(presence)|]) && presence[|old(presence)|].kind == Presence.HanFun
      ensures presence[|old(presence)|].id == Text.NatToDecimal(row.id) && presence[|old(presence)|].lastTick == now
      ensures virtualResources == old(virtualResources) + [row.id]
      ensures hanState == Running
    {
      virtualDevices := virtualDevices + [VirtualDevice(row.id, propertiesOk)];
      var p := new Presence.Presence.HF(row.id, now);
      presence := presence + [p];
      virtualResources := virtualResources + [row.id];
      hanState := Running;
    }

    /**
     * GetDeviceTableCB. For the manager, every row with a piid that is not
     * SEEN_NATIVE starts a bridge process (after killing the virtual one),
     * and a full page asks for the next; for a plugin, the first row
     * becomes its virtual device, presence and resource, and the state
     * RUNNING.
     */
    method GetDeviceTableCB(devIndex: nat, rows: seq<DeviceRecord>, propertiesOk: bool, now: int)
      requires devIndex < 256 && |rows| < 256
      requires forall i :: 0 <= i < |rows| ==> WellFormed(rows[i])
      requires sender != 0 ==> |rows| >= 1
      requires Valid()
      modifies this`events, this`virtualDevices, this`presence, this`virtualResources, this`hanState, this`tasks, this`rdPublishPending
      ensures Valid()
      ensures sender == 0 ==>
                && events == old(events) + TableEvents(TablePiids(rows, env.sha1, env.uuidString), |rows|, devIndex, env.seenState, old(secureMode))
                             + (if |rows| == TablePage then [DeviceTableRequested((devIndex + TablePage) % 256, TablePage)] else [])
                && virtualDevices == old(virtualDevices) && presence == old(presence)
                && virtualResources == old(virtualResources) && hanState == old(hanState)
                && tasks == old(tasks) && rdPublishPending == old(rdPublishPending)
      ensures sender != 0 ==>
                && events == old(events)
                && virtualDevices == old(virtualDevices) + [VirtualDevice(rows[0].id, propertiesOk)]
                && |presence| == |old(presence)| + 1 && presence[..|old(presence)|] == old(presence)
                && fresh(presence[|old(presence)|]) && presence[|old(presence)|].kind == Presence.HanFun
                && presence[|old(presence)|].id == Text.NatToDecimal(rows[0].id) && presence[|old(presence)|].lastTick == now
                && tasks == Republished(old(tasks), old(rdPublishPending), now + 1) && rdPublishPending
                && virtualResources == old(virtualResources) + [rows[0].id]
                && hanState == Running
    {
      if sender == 0 {
        var piids := TablePiids(rows, env.sha1, env.uuidString);
        StartTableProcesses(devIndex, piids);
      } else {
        Virtualize(rows[0], propertiesOk, now);
      }
    }
  }
}
