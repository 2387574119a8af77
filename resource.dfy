/**
 * The bridge's view of a discovered OCF device (src/resource.cpp): the
 * addresses a resource is reachable on, the lookups over a device's
 * resources, reparenting a collection's links, the failover request
 * context, and the query-string helpers behind the bridge's own resources.
 */
module Resources {
  import opened Wrappers
  import opened Text
  import opened Rep

  // ---------------------------------------------------------------------
  // Stack constants (octypes.h / cacommon.h)
  // ---------------------------------------------------------------------

  /** OCTransportFlags, a bit set. */
  type Flags = bv16

  const FlagSecure: Flags := 0x10
  const IpUseV6: Flags := 0x20
  const IpUseV4: Flags := 0x40

  /** OC_OBSERVABLE in a resource's policy bitmap. */
  const Observable: bv8 := 0x02

  const MaxAddrStrSize: nat := 66
  const MaxIdentitySize: nat := 37

  const DeviceUri: string := "/oic/d"
  const VirtualDeviceType: string := "oic.d.virtual"
  const BaselineInterface: string := "oic.if.baseline"

  /**
   * OCStackResult codes the failover logic compares against, with the values
   * IoTivity's octypes.h gives OC_STACK_OK, OC_STACK_RESOURCE_CHANGED and
   * OC_STACK_INVALID_QUERY.
   */
  const StackOk: int := 0
  const StackResourceChanged: int := 4
  const StackInvalidQuery: int := 21

  function HasFlag(flags: Flags, bit: Flags): bool { flags & bit != 0 }

  // ---------------------------------------------------------------------
  // Data model
  // ---------------------------------------------------------------------

  /** OCTransportAdapter; `AdapterUnset` is a field the code never assigned. */
  datatype Adapter = AdapterIP | AdapterTCP | AdapterOther(code: nat) | AdapterUnset

  /** OCDevAddr. */
  datatype DevAddr = DevAddr(adapter: Adapter, flags: Flags, port: uint16, addr: string, ifindex: nat, remoteId: string)

  /** OCEndpointPayload. */
  datatype Endpoint = Endpoint(tps: string, addr: string, family: Flags, port: uint16, pri: uint16)

  /** OCResourcePayload as discovery (or `ParseLink`) delivers it. */
  datatype ResourcePayload = ResourcePayload(
    uri: Option<string>, rel: Option<string>, anchor: Option<string>,
    types: seq<string>, interfaces: seq<string>,
    bitmap: uint8, secure: bool, port: uint16, eps: seq<Endpoint>)

  /** OCDiscoveryPayload: the sid and the resource list. */
  datatype DiscoveryPayload = DiscoveryPayload(sid: string, resources: seq<ResourcePayload>)

  /** The `Resource` class; it is copied by value between vectors. */
  datatype Resource = Resource(uri: string, ifs: seq<string>, rts: seq<string>, observable: bool,
                               addrs: seq<DevAddr>, resources: seq<Resource>)

  /** The `Device` class: the sid and the top-level resources. */
  datatype Device = Device(di: string, resources: seq<Resource>)

  // ---------------------------------------------------------------------
  // GetDevAddrs
  // ---------------------------------------------------------------------

  /** The origin as a secure resource is reached: secure flag, and the policy port over IP. */
  function SecureOrigin(origin: DevAddr, rp: ResourcePayload): (r: DevAddr)
  {
    if rp.secure then
      origin.(flags := origin.flags | FlagSecure,
              port := if origin.adapter == AdapterIP then rp.port else origin.port)
    else origin
  }

  /** The adapter an endpoint's transport-protocol suite names; unassigned otherwise. */
  function EndpointAdapter(tps: string): (r: Adapter)
  {
    var t := CPrefix(tps);
    if t == "coap" || t == "coaps" then AdapterIP
    else if t == "coap+tcp" || t == "coaps+tcp" then AdapterTCP
    else AdapterUnset
  }

  /** `src` holds "%25" at `i`. */
  predicate EscapeAt(src: string, i: nat) {
    i + 2 < |src| && src[i] == '%' && src[i + 1] == '2' && src[i + 2] == '5'
  }

  /**
   * The characters the copy loop writes from source index `i` on: one per
   * source character, except that on IPv6 a "%25" is written as a single
   * '%'; reading stops at the end of the string or at MAX_ADDR_STR_SIZE.
   */
  function Collapsed(src: string, v6: bool, i: nat): (r: string)
    decreases |src| - i
  {
    if i >= |src| || i >= MaxAddrStrSize then []
    else if v6 && EscapeAt(src, i) then ['%'] + Collapsed(src, v6, i + 3)
    else [src[i]] + Collapsed(src, v6, i + 1)
  }

  lemma {:induction false} CollapsedLength(src: string, v6: bool, i: nat)
    ensures |Collapsed(src, v6, i)| <= if i < MaxAddrStrSize then MaxAddrStrSize - i else 0
    decreases |src| - i
  {
    if i >= |src| || i >= MaxAddrStrSize {
    } else if v6 && EscapeAt(src, i) {
      CollapsedLength(src, v6, i + 3);
    } else {
      CollapsedLength(src, v6, i + 1);
    }
  }

  /** A string of `n` NULs. */
  function Nuls(n: nat): (r: string)
    ensures |r| == n && forall k :: 0 <= k < n ==> r[k] == '\0'
  {
    seq(n, _ => '\0')
  }

  /**
   * The address copy loop of GetDevAddrs: a zeroed MAX_ADDR_STR_SIZE
   * buffer, filled from the endpoint's address.
   */
  method CollapseAddr(epAddr: string, v6: bool) returns (buf: array<char>, n: nat)
    ensures fresh(buf) && buf.Length == MaxAddrStrSize
    ensures n <= MaxAddrStrSize && buf[..] == Collapsed(CPrefix(epAddr), v6, 0) + Nuls(MaxAddrStrSize - n)
  {
    var src := CPrefix(epAddr);
    ghost var out := Collapsed(src, v6, 0);
    buf := new char[MaxAddrStrSize](_ => '\0');
    var i: nat, j: nat := 0, 0;
    CollapsedLength(src, v6, 0);
    while i < MaxAddrStrSize && i < |src|
      invariant j <= i && j <= |out| <= MaxAddrStrSize
      invariant out[j..] == Collapsed(src, v6, i)
      invariant forall k :: 0 <= k < j ==> buf[k] == out[k]
      invariant forall k :: j <= k < MaxAddrStrSize ==> buf[k] == '\0'
      decreases |src| - i
    {
      var next := if v6 && EscapeAt(src, i) then i + 3 else i + 1;
      CollapsedStep(src, v6, i);
      ConsSlices(out, j, src[i], Collapsed(src, v6, next));
      buf[j] := src[i];
      if v6 && EscapeAt(src, i) {
        i := i + 2;
      }
      i, j := i + 1, j + 1;
      assert i == next;
    }
    n := j;
    assert Collapsed(src, v6, i) == [];
    assert |out| == n;
    assert forall k :: 0 <= k < MaxAddrStrSize ==> buf[..][k] == (out + Nuls(MaxAddrStrSize - n))[k];
  }

  /** Collapsed unfolded once, at a position the copy loop reads. */
  lemma CollapsedStep(src: string, v6: bool, i: nat)
    requires i < |src| && i < MaxAddrStrSize
    ensures Collapsed(src, v6, i) == [src[i]] + Collapsed(src, v6, if v6 && EscapeAt(src, i) then i + 3 else i + 1)
  {
  }

  /** A slice that starts with `c` then `rest`, read back one position on. */
  lemma ConsSlices<T>(s: seq<T>, j: nat, c: T, rest: seq<T>)
    requires j <= |s| && s[j..] == [c] + rest
    ensures j < |s| && s[j] == c && s[j + 1..] == rest
  {
    assert s[j] == s[j..][0];
    assert s[j + 1..] == s[j..][1..];
  }

  /** `strncpy(remoteId, di, MAX_IDENTITY_SIZE)`: at most that many characters of the sid. */
  function RemoteId(di: string): (r: string)
    ensures |r| <= MaxIdentitySize
  {
    var d := CPrefix(di);
    if |d| <= MaxIdentitySize then d else d[..MaxIdentitySize]
  }

  /** The address one endpoint yields. */
  function EndpointAddr(ep: Endpoint, di: string): (r: DevAddr)
  {
    DevAddr(EndpointAdapter(ep.tps), ep.family, ep.port,
            Collapsed(CPrefix(ep.addr), HasFlag(ep.family, IpUseV6), 0), 0, RemoteId(di))
  }

  /** GetDevAddrs: the (possibly secured) origin alone, or one address per endpoint. */
  function DevAddrs(origin: DevAddr, di: string, rp: ResourcePayload): (r: seq<DevAddr>)
  {
    if |rp.eps| == 0 then [SecureOrigin(origin, rp)]
    else seq(|rp.eps|, k requires 0 <= k < |rp.eps| => EndpointAddr(rp.eps[k], di))
  }

  method GetDevAddrs(origin: DevAddr, di: string, rp: ResourcePayload) returns (addrs: seq<DevAddr>)
    ensures addrs == DevAddrs(origin, di, rp)
  {
    var o := origin;
    if rp.secure {
      o := o.(flags := o.flags | FlagSecure);
      if o.adapter == AdapterIP {
        o := o.(port := rp.port);
      }
    }
    addrs := [];
    if |rp.eps| == 0 {
      addrs := addrs + [o];
    }
    var k := 0;
    while k < |rp.eps|
      invariant k <= |rp.eps|
      invariant |rp.eps| == 0 ==> addrs == [o]
      invariant |rp.eps| > 0 ==> addrs == DevAddrs(origin, di, rp)[..k]
    {
      var ep := rp.eps[k];
      var buf, n := CollapseAddr(ep.addr, HasFlag(ep.family, IpUseV6));
      assert buf[..n] == Collapsed(CPrefix(ep.addr), HasFlag(ep.family, IpUseV6), 0);
      var addr := DevAddr(EndpointAdapter(ep.tps), ep.family, ep.port, buf[..n], 0, RemoteId(di));
      addrs := addrs + [addr];
      k := k + 1;
    }
  }

  /**
   * The address list is never empty; without endpoints it is the origin,
   * secured for a secure resource; otherwise it follows the endpoints one
   * for one, with their port and flags and the sid as remote identity.
   */
  lemma DevAddrsShape(origin: DevAddr, di: string, rp: ResourcePayload)
    ensures |DevAddrs(origin, di, rp)| >= 1
    ensures |rp.eps| == 0 ==> DevAddrs(origin, di, rp) == [SecureOrigin(origin, rp)]
    ensures |rp.eps| > 0 ==> |DevAddrs(origin, di, rp)| == |rp.eps|
    ensures forall k :: 0 <= k < |rp.eps| ==>
              var a := DevAddrs(origin, di, rp)[k];
              a.port == rp.eps[k].port && a.flags == rp.eps[k].family && a.remoteId == RemoteId(di)
  {
  }

  /** A secure resource's origin carries the secure flag and, on IP, the policy port. */
  lemma SecureOriginFlags(origin: DevAddr, rp: ResourcePayload)
    requires rp.secure
    ensures HasFlag(SecureOrigin(origin, rp).flags, FlagSecure)
    ensures origin.adapter == AdapterIP ==> SecureOrigin(origin, rp).port == rp.port
    ensures origin.adapter != AdapterIP ==> SecureOrigin(origin, rp).port == origin.port
    ensures SecureOrigin(origin, rp).addr == origin.addr
  {
    assert (origin.flags | FlagSecure) & FlagSecure == FlagSecure;
  }

  /** Without "%25" (or off IPv6), the address is copied unchanged, up to MAX_ADDR_STR_SIZE characters. */
  lemma {:induction false} CollapsedPlain(src: string, v6: bool, i: nat)
    requires i <= |src| <= MaxAddrStrSize
    requires forall k :: i <= k < |src| ==> !(v6 && EscapeAt(src, k))
    ensures Collapsed(src, v6, i) == src[i..]
    decreases |src| - i
  {
    if i < |src| {
      CollapsedPlain(src, v6, i + 1);
    }
  }

  // ---------------------------------------------------------------------
  // Resource and Device construction
  // ---------------------------------------------------------------------

  /** The Resource constructor: uri, interfaces and types in list order, OC_OBSERVABLE, addresses. */
  function ResourceOf(origin: DevAddr, di: string, rp: ResourcePayload): (r: Resource)
    requires rp.uri.Some?
  {
    Resource(rp.uri.value, rp.interfaces, rp.types, (rp.bitmap as bv8) & Observable != 0,
             DevAddrs(origin, di, rp), [])
  }

  method NewResource(origin: DevAddr, di: string, rp: ResourcePayload) returns (r: Resource)
    requires rp.uri.Some?
    ensures r == ResourceOf(origin, di, rp)
  {
    var addrs := GetDevAddrs(origin, di, rp);
    r := Resource(rp.uri.value, rp.interfaces, rp.types, (rp.bitmap as bv8) & Observable != 0, addrs, []);
  }

  predicate AllHaveUri(rps: seq<ResourcePayload>) {
    forall k :: 0 <= k < |rps| ==> rps[k].uri.Some?
  }

  /** The Device constructor: one Resource per discovered resource, in payload order. */
  function DeviceOf(origin: DevAddr, payload: DiscoveryPayload): (r: Device)
    requires AllHaveUri(payload.resources)
  {
    Device(payload.sid, seq(|payload.resources|, k requires 0 <= k < |payload.resources| =>
                               ResourceOf(origin, payload.sid, payload.resources[k])))
  }

  method NewDevice(origin: DevAddr, payload: DiscoveryPayload) returns (d: Device)
    requires AllHaveUri(payload.resources)
    ensures d == DeviceOf(origin, payload)
  {
    var rs: seq<Resource> := [];
    var k := 0;
    while k < |payload.resources|
      invariant k <= |payload.resources|
      invariant rs == DeviceOf(origin, payload).resources[..k]
    {
      var r := NewResource(origin, payload.sid, payload.resources[k]);
      rs := rs + [r];
      k := k + 1;
    }
    d := Device(payload.sid, rs);
  }

  /** Every resource of a device keeps its payload's uri and types and has at least one address. */
  lemma DeviceOfResources(origin: DevAddr, payload: DiscoveryPayload)
    requires AllHaveUri(payload.resources)
    ensures |DeviceOf(origin, payload).resources| == |payload.resources|
    ensures forall k :: 0 <= k < |payload.resources| ==>
              var r := DeviceOf(origin, payload).resources[k];
              r.uri == payload.resources[k].uri.value && r.rts == payload.resources[k].types
              && |r.addrs| >= 1
  {
    forall k | 0 <= k < |payload.resources|
      ensures |DeviceOf(origin, payload).resources[k].addrs| >= 1
    {
      DevAddrsShape(origin, payload.sid, payload.resources[k]);
    }
  }

  // ---------------------------------------------------------------------
  // Lookups
  // ---------------------------------------------------------------------

  /** Resource::IsSecure: some address carries OC_FLAG_SECURE. */
  function AnySecure(addrs: seq<DevAddr>, i: nat): (r: bool)
    requires i <= |addrs|
    decreases |addrs| - i
    ensures r <==> exists k :: i <= k < |addrs| && HasFlag(addrs[k].flags, FlagSecure)
  {
    if i == |addrs| then false
    else if HasFlag(addrs[i].flags, FlagSecure) then true
    else AnySecure(addrs, i + 1)
  }

  function IsSecure(r: Resource): (b: bool)
    ensures b <==> exists k :: 0 <= k < |r.addrs| && HasFlag(r.addrs[k].flags, FlagSecure)
  {
    AnySecure(r.addrs, 0)
  }

  /** A secure resource discovered without endpoints is secure from its origin. */
  lemma SecurePayloadIsSecure(origin: DevAddr, di: string, rp: ResourcePayload)
    requires rp.secure && |rp.eps| == 0 && rp.uri.Some?
    ensures IsSecure(ResourceOf(origin, di, rp))
  {
    SecureOriginFlags(origin, rp);
    assert ResourceOf(origin, di, rp).addrs[0] == SecureOrigin(origin, rp);
  }

  /** HasResourceType (resource.h): `rt` is one of the types. */
  function HasResourceType(rts: seq<string>, rt: string): bool {
    rt in rts
  }

  function FindUriFrom(rs: seq<Resource>, uri: string, i: nat): (k: nat)
    requires i <= |rs|
    decreases |rs| - i
    ensures i <= k <= |rs|
    ensures k < |rs| ==> rs[k].uri == uri
    ensures forall j :: i <= j < k ==> rs[j].uri != uri
  {
    if i == |rs| then i
    else if rs[i].uri == uri then i
    else FindUriFrom(rs, uri, i + 1)
  }

  /** FindResourceFromUri: the index of the first resource with `uri`, or the end. */
  function FindResourceFromUri(rs: seq<Resource>, uri: string): (k: nat)
    ensures k <= |rs|
    ensures k < |rs| ==> rs[k].uri == uri
    ensures forall j :: 0 <= j < k ==> rs[j].uri != uri
  {
    FindUriFrom(rs, uri, 0)
  }

  function FindTypeFrom(rs: seq<Resource>, rt: string, i: nat): (k: nat)
    requires i <= |rs|
    decreases |rs| - i
    ensures i <= k <= |rs|
    ensures k < |rs| ==> HasResourceType(rs[k].rts, rt)
    ensures forall j :: i <= j < k ==> !HasResourceType(rs[j].rts, rt)
  {
    if i == |rs| then i
    else if HasResourceType(rs[i].rts, rt) then i
    else FindTypeFrom(rs, rt, i + 1)
  }

  /** FindResourceFromType: the first resource carrying `rt`, or the end. */
  function FindResourceFromType(rs: seq<Resource>, rt: string): (k: nat)
    ensures k <= |rs|
    ensures k < |rs| ==> HasResourceType(rs[k].rts, rt)
    ensures forall j :: 0 <= j < k ==> !HasResourceType(rs[j].rts, rt)
  {
    FindTypeFrom(rs, rt, 0)
  }

  /** Device::GetResourceUri: the first match, or NULL. */
  function GetResourceUri(d: Device, uri: string): (r: Option<nat>)
    ensures r.Some? <==> exists k :: 0 <= k < |d.resources| && d.resources[k].uri == uri
    ensures r.Some? ==> r.value < |d.resources| && d.resources[r.value].uri == uri
                        && forall j :: 0 <= j < r.value ==> d.resources[j].uri != uri
  {
    var k := FindResourceFromUri(d.resources, uri);
    if k < |d.resources| then Some(k) else None
  }

  /** Device::GetResourceType: the first resource with that type, or NULL. */
  function GetResourceType(d: Device, rt: string): (r: Option<nat>)
    ensures r.Some? <==> exists k :: 0 <= k < |d.resources| && rt in d.resources[k].rts
    ensures r.Some? ==> r.value < |d.resources| && rt in d.resources[r.value].rts
                        && forall j :: 0 <= j < r.value ==> rt !in d.resources[j].rts
  {
    var k := FindResourceFromType(d.resources, rt);
    if k < |d.resources| then Some(k) else None
  }

  /** Device::IsVirtual: the /oic/d resource exists and carries oic.d.virtual. */
  function IsVirtual(d: Device): (b: bool)
    ensures b <==> exists k :: 0 <= k < |d.resources| && d.resources[k].uri == DeviceUri
                              && (forall j :: 0 <= j < k ==> d.resources[j].uri != DeviceUri)
                              && VirtualDeviceType in d.resources[k].rts
  {
    match GetResourceUri(d, DeviceUri)
    case None => false
    case Some(k) => HasResourceType(d.resources[k].rts, VirtualDeviceType)
  }

  // ---------------------------------------------------------------------
  // SetCollectionLinks
  // ---------------------------------------------------------------------

  /** The outcome of reparenting: done, a link without href or uri, or the collection no longer found. */
  datatype LinkOutcome =
    | Linked(resources: seq<Resource>)
    | MissingHref(resources: seq<Resource>)
    | CollectionLost(resources: seq<Resource>)

  /** The links of a collection: its "links" array, else the payload chain itself. */
  function Links(chain: seq<Payload>): seq<Payload>
    requires |chain| >= 1
  {
    match GetObjectArray(chain[0], "links")
    case Some(ls) => ls
    case None => chain
  }

  /** A link's target: "href", else the link payload's own uri. */
  function LinkHref(link: Payload): Option<string> {
    match GetString(link, "href")
    case Some(h) => Some(h)
    case None => link.uri
  }

  function Remove(rs: seq<Resource>, k: nat): (r: seq<Resource>)
    requires k < |rs|
    ensures |r| == |rs| - 1
    ensures forall j :: 0 <= j < k ==> r[j] == rs[j]
    ensures forall j :: k <= j < |r| ==> r[j] == rs[j + 1]
  {
    rs[..k] + rs[k + 1..]
  }

  /** One link: append the named top-level resource to the collection's children and erase it. */
  function MoveOne(rs: seq<Resource>, collectionUri: string, k: nat): (r: seq<Resource>)
    requires k < |rs| && FindResourceFromUri(rs, collectionUri) < |rs|
  {
    var c := FindResourceFromUri(rs, collectionUri);
    Remove(rs[c := rs[c].(resources := rs[c].resources + [rs[k]])], k)
  }

  /** The effect of the link loop from `links` on, as the source performs it. */
  function MoveLinks(rs: seq<Resource>, collectionUri: string, links: seq<Payload>): (r: LinkOutcome)
    requires FindResourceFromUri(rs, collectionUri) < |rs|
    decreases |links|
  {
    if |links| == 0 then Linked(rs)
    else match LinkHref(links[0])
      case None => MissingHref(rs)
      case Some(href) =>
        var k := FindResourceFromUri(rs, href);
        if k == |rs| then MoveLinks(rs, collectionUri, links[1..])
        else
          var rest := MoveOne(rs, collectionUri, k);
          if FindResourceFromUri(rest, collectionUri) == |rest| then CollectionLost(rest)
          else MoveLinks(rest, collectionUri, links[1..])
  }

  /**
   * Device::SetCollectionLinks on the device's resource vector; `chain` is
   * the response payload followed by its `next` payloads.
   */
  method SetCollectionLinks(resources: seq<Resource>, collectionUri: string, chain: seq<Payload>)
    returns (success: bool, out: seq<Resource>)
    requires |chain| >= 1 && FindResourceFromUri(resources, collectionUri) < |resources|
    ensures var o := MoveLinks(resources, collectionUri, Links(chain));
            !o.CollectionLost? ==> success == o.Linked? && out == o.resources
    ensures MoveLinks(resources, collectionUri, Links(chain)).CollectionLost? ==> !success
  {
    var links := Links(chain);
    out := resources;
    var i := 0;
    while i < |links|
      invariant i <= |links|
      invariant FindResourceFromUri(out, collectionUri) < |out|
      invariant MoveLinks(out, collectionUri, links[i..]) == MoveLinks(resources, collectionUri, links)
    {
      assert links[i..][1..] == links[i + 1..];
      var href := LinkHref(links[i]);
      if href.None? {
        return false, out;
      }
      var rit := FindResourceFromUri(out, href.value);
      if rit < |out| {
        out := MoveOne(out, collectionUri, rit);
        if FindResourceFromUri(out, collectionUri) == |out| {
          // assert(collection != resources_.end()) fails
          return false, out;
        }
      }
      i := i + 1;
    }
    success := true;
  }

  predicate DistinctUris(rs: seq<Resource>) {
    forall i, j :: 0 <= i < j < |rs| ==> rs[i].uri != rs[j].uri
  }

  /** The number of children the collection has. */
  function ChildCount(rs: seq<Resource>, collectionUri: string): nat
    requires FindResourceFromUri(rs, collectionUri) < |rs|
  {
    |rs[FindResourceFromUri(rs, collectionUri)].resources|
  }

  /** The URIs after a move: the collection's entry keeps its URI, and entry `k` is gone. */
  lemma MoveOneUris(rs: seq<Resource>, collectionUri: string, k: nat)
    requires k < |rs| && FindResourceFromUri(rs, collectionUri) < |rs|
    ensures var r := MoveOne(rs, collectionUri, k);
            forall j :: 0 <= j < |r| ==> r[j].uri == rs[if j < k then j else j + 1].uri
  {
    var c := FindResourceFromUri(rs, collectionUri);
    var w := rs[c := rs[c].(resources := rs[c].resources + [rs[k]])];
    assert forall j :: 0 <= j < |w| ==> w[j].uri == rs[j].uri;
  }

  /** Found after a move exactly when found before and not the moved URI (URIs distinct). */
  lemma MoveOneFinds(rs: seq<Resource>, r: seq<Resource>, k: nat, u: string)
    requires k < |rs| && |r| == |rs| - 1 && DistinctUris(rs)
    requires forall j :: 0 <= j < |r| ==> r[j].uri == rs[if j < k then j else j + 1].uri
    ensures FindResourceFromUri(r, u) < |r| <==> u != rs[k].uri && FindResourceFromUri(rs, u) < |rs|
  {
    if FindResourceFromUri(rs, u) < |rs| && u != rs[k].uri {
      var m := FindResourceFromUri(rs, u);
      assert r[if m < k then m else m - 1].uri == u;
    }
    if FindResourceFromUri(r, u) < |r| {
      var m := FindResourceFromUri(r, u);
      assert rs[if m < k then m else m + 1].uri == u;
    }
  }

  lemma MoveOneKeeps(rs: seq<Resource>, collectionUri: string, k: nat)
    requires k < |rs| && FindResourceFromUri(rs, collectionUri) < |rs|
    requires DistinctUris(rs) && rs[k].uri != collectionUri
    ensures var r := MoveOne(rs, collectionUri, k);
            && DistinctUris(r)
            && FindResourceFromUri(r, collectionUri) < |r|
            && ChildCount(r, collectionUri) == ChildCount(rs, collectionUri) + 1
            && (forall u :: FindResourceFromUri(r, u) < |r| <==> u != rs[k].uri && FindResourceFromUri(rs, u) < |rs|)
  {
    var c := FindResourceFromUri(rs, collectionUri);
    var r := MoveOne(rs, collectionUri, k);
    MoveOneUris(rs, collectionUri, k);
    assert DistinctUris(r) by {
      forall i, j | 0 <= i < j < |r| ensures r[i].uri != r[j].uri {
        assert rs[if i < k then i else i + 1].uri != rs[if j < k then j else j + 1].uri;
      }
    }
    var c' := if c < k then c else c - 1;
    assert r[c'].resources == rs[c].resources + [rs[k]];
    assert FindResourceFromUri(r, collectionUri) == c' by {
      forall j | 0 <= j < c' ensures r[j].uri != collectionUri {
        assert rs[if j < k then j else j + 1].uri != collectionUri;
      }
    }
    forall u ensures FindResourceFromUri(r, u) < |r| <==> u != rs[k].uri && FindResourceFromUri(rs, u) < |rs| {
      MoveOneFinds(rs, r, k, u);
    }
  }

  /**
   * With distinct URIs, a completed reparenting has moved one resource per
   * link that named a top-level resource: the top level shrinks by exactly
   * as many as the collection gains, no link named the collection itself,
   * URIs stay distinct, and no link's target is left at the top level.
   */
  lemma {:induction false} MoveLinksMoves(rs: seq<Resource>, collectionUri: string, links: seq<Payload>)
    requires FindResourceFromUri(rs, collectionUri) < |rs| && DistinctUris(rs)
    ensures var o := MoveLinks(rs, collectionUri, links);
            o.Linked? ==>
              && DistinctUris(o.resources)
              && FindResourceFromUri(o.resources, collectionUri) < |o.resources|
              && |o.resources| + ChildCount(o.resources, collectionUri) == |rs| + ChildCount(rs, collectionUri)
              && forall i :: 0 <= i < |links| ==>
                   LinkHref(links[i]).Some? && FindResourceFromUri(o.resources, LinkHref(links[i]).value) == |o.resources|
    decreases |links|
  {
    if |links| > 0 && LinkHref(links[0]).Some? {
      var href := LinkHref(links[0]).value;
      var k := FindResourceFromUri(rs, href);
      if k < |rs| && rs[k].uri == collectionUri {
        SelfLinkLoses(rs, collectionUri, k);
      } else {
        var next := if k == |rs| then rs else MoveOne(rs, collectionUri, k);
        if k < |rs| {
          MoveOneKeeps(rs, collectionUri, k);
        }
        MoveLinksMoves(next, collectionUri, links[1..]);
        MoveLinksKeepsGone(next, collectionUri, links[1..], href);
        assert MoveLinks(rs, collectionUri, links) == MoveLinks(next, collectionUri, links[1..]);
        forall i | 1 <= i < |links| ensures links[i] == links[1..][i - 1] {
        }
      }
    }
  }

  /** A link naming the collection itself moves it into its own children and loses it. */
  lemma SelfLinkLoses(rs: seq<Resource>, collectionUri: string, k: nat)
    requires k < |rs| && FindResourceFromUri(rs, collectionUri) < |rs| && DistinctUris(rs)
    requires rs[k].uri == collectionUri
    ensures var rest := MoveOne(rs, collectionUri, k);
            FindResourceFromUri(rest, collectionUri) == |rest|
  {
    MoveOneUris(rs, collectionUri, k);
    var rest := MoveOne(rs, collectionUri, k);
    forall j | 0 <= j < |rest| ensures rest[j].uri != collectionUri {
      assert rest[j].uri == rs[if j < k then j else j + 1].uri;
    }
  }

  /** A URI absent from the top level stays absent while the links are followed. */
  lemma {:induction false} MoveLinksKeepsGone(rs: seq<Resource>, collectionUri: string, links: seq<Payload>, u: string)
    requires FindResourceFromUri(rs, collectionUri) < |rs| && DistinctUris(rs)
    requires FindResourceFromUri(rs, u) == |rs|
    ensures var o := MoveLinks(rs, collectionUri, links);
            o.Linked? ==> FindResourceFromUri(o.resources, u) == |o.resources|
    decreases |links|
  {
    if |links| > 0 && LinkHref(links[0]).Some? {
      var href := LinkHref(links[0]).value;
      var k := FindResourceFromUri(rs, href);
      if k == |rs| {
        MoveLinksKeepsGone(rs, collectionUri, links[1..], u);
      } else if rs[k].uri != collectionUri {
        MoveOneKeeps(rs, collectionUri, k);
        MoveLinksKeepsGone(MoveOne(rs, collectionUri, k), collectionUri, links[1..], u);
      } else {
        SelfLinkLoses(rs, collectionUri, k);
      }
    }
  }

  /** A link with neither "href" nor a uri stops the loop and reports failure. */
  lemma MissingHrefFails(rs: seq<Resource>, collectionUri: string, links: seq<Payload>)
    requires FindResourceFromUri(rs, collectionUri) < |rs|
    requires |links| > 0 && GetString(links[0], "href").None? && links[0].uri.None?
    ensures MoveLinks(rs, collectionUri, links) == MissingHref(rs)
  {
  }

  /** The top-level resources whose URI is none of `names`, in their order. */
  function Unlinked(rs: seq<Resource>, names: set<string>): (r: seq<Resource>)
    ensures |r| <= |rs|
    ensures forall j :: 0 <= j < |r| ==> r[j].uri !in names
    decreases |rs|
  {
    if |rs| == 0 then []
    else (if rs[0].uri in names then [] else [rs[0]]) + Unlinked(rs[1..], names)
  }

  /** Every href the links name. */
  function HrefSet(links: seq<Payload>): (r: set<string>)
    ensures forall i :: 0 <= i < |links| && LinkHref(links[i]).Some? ==> LinkHref(links[i]).value in r
    decreases |links|
  {
    if |links| == 0 then {}
    else
      (match LinkHref(links[0]) case Some(h) => {h} case None => {})
      + HrefSet(links[1..])
  }

  /**
   * The resources the links reparent, read off the original top level: in
   * link order, the resource each href names, skipping hrefs no top-level
   * resource has, hrefs an earlier link already named (`seen`) and the
   * collection's own URI.
   */
  function Targets(rs: seq<Resource>, collectionUri: string, links: seq<Payload>, seen: set<string>): (r: seq<Resource>)
    ensures |r| <= |links|
    ensures forall j :: 0 <= j < |r| ==> r[j] in rs && r[j].uri != collectionUri && r[j].uri !in seen
    decreases |links|
  {
    if |links| == 0 then []
    else match LinkHref(links[0])
      case None => Targets(rs, collectionUri, links[1..], seen)
      case Some(h) =>
        var k := FindResourceFromUri(rs, h);
        if h !in seen && h != collectionUri && k < |rs|
        then [rs[k]] + Targets(rs, collectionUri, links[1..], seen + {h})
        else Targets(rs, collectionUri, links[1..], seen + {h})
  }

  lemma {:induction false} UnlinkedConcat(a: seq<Resource>, b: seq<Resource>, names: set<string>)
    ensures Unlinked(a + b, names) == Unlinked(a, names) + Unlinked(b, names)
    decreases |a|
  {
    if |a| == 0 {
      assert a + b == b;
    } else {
      assert (a + b)[1..] == a[1..] + b;
      UnlinkedConcat(a[1..], b, names);
    }
  }

  /** A name no resource carries filters nothing. */
  lemma {:induction false} UnlinkedIgnores(rs: seq<Resource>, names: set<string>, h: string)
    requires forall j :: 0 <= j < |rs| ==> rs[j].uri != h
    ensures Unlinked(rs, names + {h}) == Unlinked(rs, names)
    decreases |rs|
  {
    if |rs| > 0 {
      UnlinkedIgnores(rs[1..], names, h);
    }
  }

  lemma {:induction false} UnlinkedNothing(rs: seq<Resource>)
    ensures Unlinked(rs, {}) == rs
    decreases |rs|
  {
    if |rs| > 0 {
      UnlinkedNothing(rs[1..]);
    }
  }

  /** Erasing the only resource with a URI is filtering that URI out. */
  lemma UnlinkedRemove(rs: seq<Resource>, k: nat, names: set<string>)
    requires k < |rs| && DistinctUris(rs)
    ensures Unlinked(Remove(rs, k), names) == Unlinked(rs, names + {rs[k].uri})
  {
    var h := rs[k].uri;
    var pre, post := rs[..k], rs[k + 1..];
    assert rs == pre + ([rs[k]] + post);
    UnlinkedConcat(pre, [rs[k]] + post, names + {h});
    UnlinkedConcat([rs[k]], post, names + {h});
    assert Unlinked([rs[k]], names + {h}) == [] by {
      assert [rs[k]][1..] == [];
    }
    UnlinkedConcat(pre, post, names);
    UnlinkedIgnores(pre, names, h);
    UnlinkedIgnores(post, names, h);
  }

  /** Seen sets that differ only in a URI no resource has give the same targets. */
  lemma {:induction false} TargetsSeenAbsent(rs: seq<Resource>, collectionUri: string, links: seq<Payload>,
                                           s: set<string>, s': set<string>, h: string)
    requires FindResourceFromUri(rs, h) == |rs|
    requires forall x :: x != h ==> (x in s <==> x in s')
    ensures Targets(rs, collectionUri, links, s) == Targets(rs, collectionUri, links, s')
    decreases |links|
  {
    if |links| > 0 {
      match LinkHref(links[0])
      case None =>
        TargetsSeenAbsent(rs, collectionUri, links[1..], s, s', h);
      case Some(u) =>
        TargetsSeenAbsent(rs, collectionUri, links[1..], s + {u}, s' + {u}, h);
    }
  }

  /** A move leaves every other resource as it was and findable under its URI. */
  lemma MoveOneSame(rs: seq<Resource>, collectionUri: string, k: nat, u: string)
    requires k < |rs| && FindResourceFromUri(rs, collectionUri) < |rs|
    requires DistinctUris(rs) && rs[k].uri != collectionUri
    requires u != collectionUri && u != rs[k].uri && FindResourceFromUri(rs, u) < |rs|
    ensures var r := MoveOne(rs, collectionUri, k);
            FindResourceFromUri(r, u) < |r| && r[FindResourceFromUri(r, u)] == rs[FindResourceFromUri(rs, u)]
  {
    var r := MoveOne(rs, collectionUri, k);
    MoveOneKeeps(rs, collectionUri, k);
    MoveOneUris(rs, collectionUri, k);
    var m := FindResourceFromUri(rs, u);
    var m' := if m < k then m else m - 1;
    assert r[m'] == rs[m];
    assert FindResourceFromUri(r, u) == m' by {
      assert forall j :: 0 <= j < |r| ==> r[j].uri == rs[if j < k then j else j + 1].uri;
    }
  }

  /** After a move, the targets still to come are those of the original top level with its URI seen. */
  lemma {:induction false} TargetsAfterMove(rs: seq<Resource>, collectionUri: string, k: nat, links: seq<Payload>,
                                          s: set<string>, s': set<string>)
    requires k < |rs| && FindResourceFromUri(rs, collectionUri) < |rs|
    requires DistinctUris(rs) && rs[k].uri != collectionUri
    requires forall x :: x != rs[k].uri ==> (x in s <==> x in s')
    requires rs[k].uri in s'
    ensures Targets(MoveOne(rs, collectionUri, k), collectionUri, links, s) == Targets(rs, collectionUri, links, s')
    decreases |links|
  {
    var h := rs[k].uri;
    var r := MoveOne(rs, collectionUri, k);
    if |links| > 0 {
      match LinkHref(links[0])
      case None =>
        TargetsAfterMove(rs, collectionUri, k, links[1..], s, s');
      case Some(u) =>
        MoveOneKeeps(rs, collectionUri, k);
        if u != collectionUri && u != h && FindResourceFromUri(rs, u) < |rs| {
          MoveOneSame(rs, collectionUri, k, u);
        }
        TargetsAfterMove(rs, collectionUri, k, links[1..], s + {u}, s' + {u});
    }
  }

  /** One move, filtered: the collection gains the moved resource ahead of `t`, and its URI is filtered out. */
  lemma MoveOneContents(rs: seq<Resource>, collectionUri: string, k: nat, t: seq<Resource>, names: set<string>)
    requires k < |rs| && FindResourceFromUri(rs, collectionUri) < |rs|
    requires DistinctUris(rs) && rs[k].uri != collectionUri
    ensures var c := FindResourceFromUri(rs, collectionUri);
            var rest := MoveOne(rs, collectionUri, k);
            var cr := FindResourceFromUri(rest, collectionUri);
            && cr < |rest|
            && Unlinked(rest[cr := rest[cr].(resources := rest[cr].resources + t)], names)
               == Unlinked(rs[c := rs[c].(resources := rs[c].resources + ([rs[k]] + t))], names + {rs[k].uri})
  {
    var c := FindResourceFromUri(rs, collectionUri);
    var rest := MoveOne(rs, collectionUri, k);
    MoveOneKeeps(rs, collectionUri, k);
    MoveOneUris(rs, collectionUri, k);
    var c' := if c < k then c else c - 1;
    var cr := FindResourceFromUri(rest, collectionUri);
    assert cr == c' by {
      assert rest[c'].uri == collectionUri;
      assert forall j :: 0 <= j < |rest| ==> rest[j].uri == rs[if j < k then j else j + 1].uri;
    }
    var v := rs[c := rs[c].(resources := rs[c].resources + ([rs[k]] + t))];
    assert rs[c].resources + [rs[k]] + t == rs[c].resources + ([rs[k]] + t);
    assert rest[cr := rest[cr].(resources := rest[cr].resources + t)] == Remove(v, k);
    assert DistinctUris(v) by {
      assert forall j :: 0 <= j < |v| ==> v[j].uri == rs[j].uri;
    }
    UnlinkedRemove(v, k, names);
  }

  /**
   * SetCollectionLinks, completed, in full: the top level is the original
   * one in its order with every linked resource filtered out, and the
   * collection's children are its old children followed by the linked
   * top-level resources in link order (unknown and repeated hrefs skipped).
   * URIs are assumed distinct because the loop finds resources by URI: with
   * two resources under one URI, a second link to it moves the second one,
   * which a filter by URI cannot describe.
   */
  lemma {:induction false} MoveLinksContents(rs: seq<Resource>, collectionUri: string, links: seq<Payload>)
    requires FindResourceFromUri(rs, collectionUri) < |rs| && DistinctUris(rs)
    ensures var c := FindResourceFromUri(rs, collectionUri);
            var o := MoveLinks(rs, collectionUri, links);
            o.Linked? ==>
              o.resources == Unlinked(rs[c := rs[c].(resources := rs[c].resources + Targets(rs, collectionUri, links, {}))],
                                      HrefSet(links))
    decreases |links|
  {
    var c := FindResourceFromUri(rs, collectionUri);
    if |links| == 0 {
      assert rs[c].resources + [] == rs[c].resources;
      assert rs[c := rs[c].(resources := rs[c].resources + [])] == rs;
      UnlinkedNothing(rs);
    } else if LinkHref(links[0]).Some? {
      var h := LinkHref(links[0]).value;
      var ls := links[1..];
      assert HrefSet(links) == HrefSet(ls) + {h};
      var k := FindResourceFromUri(rs, h);
      if k == |rs| {
        assert MoveLinks(rs, collectionUri, links) == MoveLinks(rs, collectionUri, ls);
        MoveLinksContents(rs, collectionUri, ls);
        assert Targets(rs, collectionUri, links, {}) == Targets(rs, collectionUri, ls, {} + {h});
        TargetsSeenAbsent(rs, collectionUri, ls, {} + {h}, {}, h);
        var v := rs[c := rs[c].(resources := rs[c].resources + Targets(rs, collectionUri, ls, {}))];
        assert forall j :: 0 <= j < |v| ==> v[j].uri == rs[j].uri;
        UnlinkedIgnores(v, HrefSet(ls), h);
      } else if rs[k].uri == collectionUri {
        SelfLinkLoses(rs, collectionUri, k);
      } else {
        var rest := MoveOne(rs, collectionUri, k);
        MoveOneKeeps(rs, collectionUri, k);
        MoveLinksContents(rest, collectionUri, ls);
        TargetsAfterMove(rs, collectionUri, k, ls, {}, {} + {h});
        var t := Targets(rs, collectionUri, ls, {} + {h});
        assert Targets(rs, collectionUri, links, {}) == [rs[k]] + t;
        MoveOneContents(rs, collectionUri, k, t, HrefSet(ls));
      }
    }
  }

  // ---------------------------------------------------------------------
  // DoResource and its failover context
  // ---------------------------------------------------------------------

  /** The requests a context has issued: one per destination tried, or one without a destination. */
  function Issued(destinations: seq<DevAddr>, cursor: nat): (r: seq<Option<DevAddr>>)
    requires cursor <= |destinations|
    ensures |destinations| > 0 ==> |r| == cursor
  {
    if |destinations| == 0 then [None]
    else seq(cursor, k requires 0 <= k < cursor => Some(destinations[k]))
  }

  /** DoResourceCB's retry test: a response, a destination left, and a result worth retrying. */
  predicate Retries(response: Option<int>, remaining: bool) {
    response.Some? && remaining
    && StackResourceChanged < response.value && response.value != StackInvalidQuery
  }

  /** What DoResourceCB does with a response. */
  datatype Disposition = Reissued | Delivered(response: Option<int>)

  /**
   * DoContext: the request, its destinations and the cursor to the next
   * one. The context itself is the handle its creator keeps and receives
   * back in the callback.
   */
  class DoContext {
    const uri: string
    const destinations: seq<DevAddr>
    var cursor: nat
    /** Destination of every OCDoRequest issued so far, in order. */
    var requests: seq<Option<DevAddr>>

    ghost predicate Valid() reads this {
      cursor <= |destinations| && (|destinations| > 0 ==> 1 <= cursor)
      && requests == Issued(destinations, cursor)
    }

    /** ::DoResource: the context starts at the first destination and issues the request. */
    constructor (uri: string, destinations: seq<DevAddr>)
      ensures this.uri == uri && this.destinations == destinations
      ensures Valid()
      ensures requests == if |destinations| == 0 then [None] else [Some(destinations[0])]
    {
      this.uri := uri;
      this.destinations := destinations;
      cursor := 0;
      requests := [];
      new;
      Issue();
    }

    /** The static DoResource(context): take the next destination, if any, and send. */
    method Issue()
      modifies this
      requires cursor <= |destinations|
      ensures old(cursor) < |destinations| ==>
                cursor == old(cursor) + 1 && requests == old(requests) + [Some(destinations[old(cursor)])]
      ensures old(cursor) == |destinations| ==> cursor == old(cursor) && requests == old(requests) + [None]
    {
      var destination: Option<DevAddr> := None;
      if cursor < |destinations| {
        destination := Some(destinations[cursor]);
        cursor := cursor + 1;
      }
      requests := requests + [destination];
    }

    /**
     * DoResourceCB: retry at the next destination when `Retries` holds;
     * a retry the stack accepts (`reissue` is OC_STACK_OK) hides the
     * response, otherwise the caller's callback gets it.
     */
    method OnResponse(response: Option<int>, reissue: int) returns (d: Disposition)
      modifies this
      requires Valid()
      ensures Valid()
      ensures Retries(response, old(cursor) < |destinations|) ==>
                cursor == old(cursor) + 1 && requests == old(requests) + [Some(destinations[old(cursor)])]
                && d == if reissue == StackOk then Reissued else Delivered(response)
      ensures !Retries(response, old(cursor) < |destinations|) ==>
                cursor == old(cursor) && requests == old(requests) && d == Delivered(response)
    {
      if response.Some? && cursor < |destinations| {
        if StackResourceChanged < response.value && response.value != StackInvalidQuery {
          Issue();
          assert requests == Issued(destinations, cursor);
          if reissue == StackOk {
            return Reissued;
          }
        }
      }
      d := Delivered(response);
    }
  }

  /** Each destination is tried at most once, in list order; none is skipped. */
  lemma IssuedInOrder(destinations: seq<DevAddr>, cursor: nat)
    requires 1 <= cursor <= |destinations|
    ensures forall k :: 0 <= k < cursor ==> Issued(destinations, cursor)[k] == Some(destinations[k])
    ensures Issued(destinations, cursor) == Issued(destinations, cursor - 1) + [Some(destinations[cursor - 1])]
  {
  }

  /** Which results are retried: above OC_STACK_RESOURCE_CHANGED and not OC_STACK_INVALID_QUERY. */
  lemma RetriedResults(result: int)
    ensures Retries(Some(result), true) <==> result > 4 && result != 21
    ensures !Retries(None, true)
    ensures !Retries(Some(result), false)
  {
  }

  // ---------------------------------------------------------------------
  // Query strings
  // ---------------------------------------------------------------------

  /** std::string::find / find_first_of from `from`: the first index holding a character of `cs`. */
  function FindFrom(s: string, cs: set<char>, from: nat): (r: Option<nat>)
    decreases |s| - from
    ensures r.Some? ==> from <= r.value < |s| && s[r.value] in cs
    ensures r.Some? ==> forall k :: from <= k < r.value ==> s[k] !in cs
    ensures r.None? ==> forall k :: from <= k < |s| ==> s[k] !in cs
  {
    if from >= |s| then None
    else if s[from] in cs then Some(from)
    else FindFrom(s, cs, from + 1)
  }

  const ValueEnds: set<char> := {'&', ';'}

  /**
   * The key/value pairs ParseQuery's loop reads from `beg` on: a key up to
   * '=', its value up to the next '&' or ';'; a key without '=' takes the
   * rest of the string and an empty value.
   */
  function QueryPairs(q: string, beg: nat): (r: seq<(string, string)>)
    requires beg <= |q|
    decreases |q| - beg
    ensures |r| >= 1
  {
    var next := NextPair(q, beg);
    if next.1.None? then [next.0] else [next.0] + QueryPairs(q, next.1.value)
  }

  /** One pass of ParseQuery's loop from `beg`: the pair read, and where the next one starts (if the loop goes on). */
  function NextPair(q: string, beg: nat): (r: ((string, string), Option<nat>))
    requires beg <= |q|
    ensures r.1.Some? ==> beg < r.1.value <= |q|
  {
    match FindFrom(q, {'='}, beg)
    case None => ((q[beg..], ""), None)
    case Some(e) =>
      match FindFrom(q, ValueEnds, e + 1)
      case None => ((q[beg..e], q[e + 1..]), None)
      case Some(e2) => ((q[beg..e], q[e + 1..e2]), Some(e2 + 1))
  }

  /** `queryMap[key] = value` for each pair in order. */
  function Fold(m: map<string, string>, pairs: seq<(string, string)>): map<string, string>
    decreases |pairs|
  {
    if |pairs| == 0 then m else Fold(m[pairs[0].0 := pairs[0].1], pairs[1..])
  }

  /** The resource a request addresses, as the stack reports it. */
  datatype ResourceInfo = ResourceInfo(types: seq<string>, interfaces: seq<string>)

  /** OCGetNumberOfResourceTypes / ...Interfaces into a uint8_t. */
  function TypeCount(info: ResourceInfo): nat { ToU8(|info.types|) }
  function InterfaceCount(info: ResourceInfo): nat { ToU8(|info.interfaces|) }

  /** ParseQuery's result. */
  function QueryMap(info: ResourceInfo, query: Option<string>): map<string, string> {
    var parsed := if query.Some? then Fold(map[], QueryPairs(CPrefix(query.value), 0)) else map[];
    if "if" !in parsed && TypeCount(info) != 0 then parsed["if" := BaselineInterface] else parsed
  }

  method ParseQuery(info: ResourceInfo, query: Option<string>) returns (m: map<string, string>)
    ensures m == QueryMap(info, query)
  {
    m := map[];
    if query.Some? {
      var q := CPrefix(query.value);
      var beg: nat := 0;
      var more := true;
      while more
        invariant beg <= |q|
        invariant more ==> Fold(m, QueryPairs(q, beg)) == Fold(map[], QueryPairs(q, 0))
        invariant !more ==> m == Fold(map[], QueryPairs(q, 0))
        decreases |q| - beg + (if more then 1 else 0)
      {
        var key, value, next := ReadPair(q, beg);
        FoldStep(m, q, beg);
        m := m[key := value];
        if next.None? {
          more := false;
        } else {
          beg := next.value;
        }
      }
    }
    if "if" !in m && TypeCount(info) != 0 {
      m := m["if" := BaselineInterface];
    }
  }

  /** One pass of ParseQuery's loop: the key up to '=', the value up to '&' or ';', and where the next pass starts. */
  method ReadPair(q: string, beg: nat) returns (key: string, value: string, next: Option<nat>)
    requires beg <= |q|
    ensures ((key, value), next) == NextPair(q, beg)
  {
    key, value, next := "", "", None;
    var end := FindFrom(q, {'='}, beg);
    if end.None? {
      key := q[beg..];
    } else {
      key := q[beg..end.value];
      var b := end.value + 1;
      end := FindFrom(q, ValueEnds, b);
      if end.None? {
        value := q[b..];
      } else {
        value := q[b..end.value];
        next := Some(end.value + 1);
      }
    }
  }

  /** Folding a query from `beg` is folding its first pair, then the rest. */
  lemma FoldStep(m: map<string, string>, q: string, beg: nat)
    requires beg <= |q|
    ensures var next := NextPair(q, beg);
            var m' := m[next.0.0 := next.0.1];
            Fold(m, QueryPairs(q, beg)) == if next.1.None? then m' else Fold(m', QueryPairs(q, next.1.value))
  {
    var next := NextPair(q, beg);
    var pairs := QueryPairs(q, beg);
    assert pairs[0] == next.0;
    if next.1.Some? {
      assert pairs[1..] == QueryPairs(q, next.1.value);
    }
  }

  /** The last pair with a key decides its value; keys never given keep theirs. */
  lemma {:induction false} FoldLast(m: map<string, string>, pairs: seq<(string, string)>, key: string)
    ensures key in Fold(m, pairs) <==> key in m || exists i :: 0 <= i < |pairs| && pairs[i].0 == key
    ensures (forall i :: 0 <= i < |pairs| ==> pairs[i].0 != key) && key in m ==> Fold(m, pairs)[key] == m[key]
    ensures forall i :: 0 <= i < |pairs| && pairs[i].0 == key && (forall j :: i < j < |pairs| ==> pairs[j].0 != key)
              ==> Fold(m, pairs)[key] == pairs[i].1
    decreases |pairs|
  {
    if |pairs| > 0 {
      var m' := m[pairs[0].0 := pairs[0].1];
      FoldLast(m', pairs[1..], key);
      assert forall i :: 1 <= i < |pairs| ==> pairs[1..][i - 1] == pairs[i];
      if key in Fold(m, pairs) && key !in m && pairs[0].0 != key {
        var i :| 0 <= i < |pairs[1..]| && pairs[1..][i].0 == key;
        assert pairs[i + 1].0 == key;
      }
    }
  }

  /** `k=v` for every pair, joined by '&'. */
  function JoinQuery(pairs: seq<(string, string)>): string
    requires |pairs| >= 1
  {
    if |pairs| == 1 then pairs[0].0 + "=" + pairs[0].1
    else pairs[0].0 + "=" + pairs[0].1 + "&" + JoinQuery(pairs[1..])
  }

  /** Keys without '=' and values without '&' or ';' (and no NUL) survive the round trip. */
  predicate PlainPair(p: (string, string)) {
    '=' !in p.0 && '\0' !in p.0 && '\0' !in p.1 && '&' !in p.1 && ';' !in p.1
  }

  lemma FindFromIs(s: string, cs: set<char>, from: nat, at: nat)
    requires from <= at < |s| && s[at] in cs && forall k :: from <= k < at ==> s[k] !in cs
    ensures FindFrom(s, cs, from) == Some(at)
  {
  }

  lemma FindFromNone(s: string, cs: set<char>, from: nat)
    requires forall k :: from <= k < |s| ==> s[k] !in cs
    ensures FindFrom(s, cs, from) == None
  {
  }

  /** A key and its '=' at `b`: the key is read up to that '='. */
  lemma KeyAt(s: string, b: nat, key: string)
    requires b + |key| < |s| && s[b..b + |key|] == key && s[b + |key|] == '=' && '=' !in key
    ensures FindFrom(s, {'='}, b) == Some(b + |key|)
  {
    forall k | b <= k < b + |key| ensures s[k] !in {'='} {
      assert s[k] == s[b..b + |key|][k - b];
    }
    FindFromIs(s, {'='}, b, b + |key|);
  }

  /** A value at `b` without '&' or ';' holds no value end. */
  lemma ValueAt(s: string, b: nat, value: string)
    requires b + |value| <= |s| && s[b..b + |value|] == value && '&' !in value && ';' !in value
    ensures forall k :: b <= k < b + |value| ==> s[k] !in ValueEnds
  {
    forall k | b <= k < b + |value| ensures s[k] !in ValueEnds {
      assert s[k] == s[b..b + |value|][k - b];
    }
  }

  /** One `key=value&` at `b`, read as a pair, parsing going on after the '&'. */
  lemma PairAt(s: string, b: nat, key: string, value: string)
    requires PlainPair((key, value))
    requires b + |key| + |value| + 1 < |s|
    requires s[b..b + |key|] == key && s[b + |key|] == '='
    requires s[b + |key| + 1..b + |key| + 1 + |value|] == value && s[b + |key| + 1 + |value|] == '&'
    ensures NextPair(s, b) == ((key, value), Some((b + |key| + |value| + 2) as nat))
  {
    KeyAt(s, b, key);
    ValueAt(s, b + |key| + 1, value);
    FindFromIs(s, ValueEnds, b + |key| + 1, b + |key| + 1 + |value|);
  }

  /** The final `key=value` at `b`, read as the last pair. */
  lemma LastPairAt(s: string, b: nat, key: string, value: string)
    requires PlainPair((key, value))
    requires b + |key| + |value| + 1 == |s|
    requires s[b..b + |key|] == key && s[b + |key|] == '=' && s[b + |key| + 1..] == value
    ensures NextPair(s, b) == ((key, value), None)
  {
    KeyAt(s, b, key);
    ValueAt(s, b + |key| + 1, value);
    FindFromNone(s, ValueEnds, b + |key| + 1);
  }

  /** A slice that is a concatenation splits at the first part's length. */
  lemma SliceSplit(q: string, b: nat, e: nat, x: string, y: string)
    requires b <= e <= |q| && q[b..e] == x + y
    ensures q[b..b + |x|] == x && q[b + |x|..e] == y
  {
    assert q[b..b + |x|] == (x + y)[..|x|];
    assert q[b + |x|..e] == (x + y)[|x|..];
  }

  /** Where the first `key=value&` of a joined query of several pairs sits. */
  lemma JoinHead(q: string, b: nat, pairs: seq<(string, string)>)
    requires |pairs| >= 2 && b <= |q| && q[b..] == JoinQuery(pairs)
    ensures var key, value := pairs[0].0, pairs[0].1;
            var e := b + |key|;
            var b' := e + |value| + 2;
            && b' < |q|
            && q[b..e] == key && q[e] == '=' && q[e + 1..b' - 1] == value && q[b' - 1] == '&'
            && q[b'..] == JoinQuery(pairs[1..])
  {
    var key, value := pairs[0].0, pairs[0].1;
    var e := b + |key|;
    var b' := e + |value| + 2;
    assert q[b..|q|] == (key + "=" + value + "&") + JoinQuery(pairs[1..]);
    SliceSplit(q, b, |q|, key + "=" + value + "&", JoinQuery(pairs[1..]));
    SliceSplit(q, b, b', key + "=" + value, "&");
    SliceSplit(q, b, b' - 1, key + "=", value);
    SliceSplit(q, b, e + 1, key, "=");
    assert q[e] == q[e..e + 1][0];
    assert q[b' - 1] == q[b' - 1..b'][0];
    JoinQueryNonEmpty(pairs[1..]);
  }

  lemma JoinQueryNonEmpty(pairs: seq<(string, string)>)
    requires |pairs| >= 1
    ensures |JoinQuery(pairs)| >= 1
  {
  }

  /** Parsing from `b` a string whose rest is a joined query gives back its pairs, in order. */
  lemma {:induction false} QueryPairsJoin(q: string, b: nat, pairs: seq<(string, string)>)
    requires |pairs| >= 1 && forall i :: 0 <= i < |pairs| ==> PlainPair(pairs[i])
    requires b <= |q| && q[b..] == JoinQuery(pairs)
    ensures QueryPairs(q, b) == pairs
    decreases |pairs|
  {
    assert PlainPair(pairs[0]);
    if |pairs| == 1 {
      LastJoin(q, b, pairs);
    } else {
      var b' := HeadPair(q, b, pairs);
      PlainTail(pairs);
      QueryPairsJoin(q, b', pairs[1..]);
      QueryPairsCons(q, b, b', pairs);
    }
  }

  /** QueryPairs unfolded once where the loop goes on. */
  lemma QueryPairsCons(q: string, b: nat, b': nat, pairs: seq<(string, string)>)
    requires b <= |q| && |pairs| >= 2
    requires NextPair(q, b) == (pairs[0], Some(b')) && b' <= |q| && QueryPairs(q, b') == pairs[1..]
    ensures QueryPairs(q, b) == pairs
  {
    assert pairs == [pairs[0]] + pairs[1..];
  }

  /** The first pair of a joined query of several is read, and parsing goes on where the rest starts. */
  lemma HeadPair(q: string, b: nat, pairs: seq<(string, string)>) returns (b': nat)
    requires |pairs| >= 2 && PlainPair(pairs[0])
    requires b <= |q| && q[b..] == JoinQuery(pairs)
    ensures b' == b + |pairs[0].0| + |pairs[0].1| + 2
    ensures b' <= |q| && q[b'..] == JoinQuery(pairs[1..])
    ensures NextPair(q, b) == (pairs[0], Some(b'))
  {
    b' := b + |pairs[0].0| + |pairs[0].1| + 2;
    JoinHead(q, b, pairs);
    PairAt(q, b, pairs[0].0, pairs[0].1);
  }

  lemma PlainTail(pairs: seq<(string, string)>)
    requires |pairs| >= 1 && forall i :: 0 <= i < |pairs| ==> PlainPair(pairs[i])
    ensures forall i :: 0 <= i < |pairs[1..]| ==> PlainPair(pairs[1..][i])
  {
    forall i | 0 <= i < |pairs[1..]| ensures PlainPair(pairs[1..][i]) {
      assert pairs[1..][i] == pairs[i + 1];
    }
  }

  /** QueryPairs unfolded once where the loop goes on. */
  lemma QueryPairsStep(q: string, b: nat)
    requires b <= |q| && NextPair(q, b).1.Some?
    ensures QueryPairs(q, b) == [NextPair(q, b).0] + QueryPairs(q, NextPair(q, b).1.value)
  {
  }

  /** A string whose rest is a single `key=value` parses as that one pair. */
  lemma LastJoin(q: string, b: nat, pairs: seq<(string, string)>)
    requires |pairs| == 1 && PlainPair(pairs[0])
    requires b <= |q| && q[b..] == JoinQuery(pairs)
    ensures QueryPairs(q, b) == pairs
  {
    var key, value := pairs[0].0, pairs[0].1;
    var e := b + |key|;
    assert q[b..|q|] == (key + "=") + value;
    SliceSplit(q, b, |q|, key + "=", value);
    SliceSplit(q, b, e + 1, key, "=");
    assert q[e] == q[e..e + 1][0];
    LastPairAt(q, b, key, value);
    assert pairs == [(key, value)];
  }

  /** ParseQuery reads a joined query back: the last value given for each key, and "if" defaulted. */
  lemma ParseJoinedQuery(info: ResourceInfo, pairs: seq<(string, string)>)
    requires |pairs| >= 1 && forall i :: 0 <= i < |pairs| ==> PlainPair(pairs[i])
    ensures QueryMap(info, Some(JoinQuery(pairs))) ==
              var m := Fold(map[], pairs);
              if "if" !in m && TypeCount(info) != 0 then m["if" := BaselineInterface] else m
  {
    var q := JoinQuery(pairs);
    assert '\0' !in q by { JoinQueryNoNul(pairs); }
    CPrefixOfCString(q);
    QueryPairsJoin(q, 0, pairs);
  }

  lemma {:induction false} JoinQueryNoNul(pairs: seq<(string, string)>)
    requires |pairs| >= 1 && forall i :: 0 <= i < |pairs| ==> PlainPair(pairs[i])
    ensures '\0' !in JoinQuery(pairs)
    decreases |pairs|
  {
    if |pairs| > 1 {
      assert forall i :: 0 <= i < |pairs[1..]| ==> pairs[1..][i] == pairs[i + 1];
      JoinQueryNoNul(pairs[1..]);
    }
  }

  /** A trailing key without '=' maps to the empty value. */
  lemma TrailingKey(pre: string, key: string)
    requires '=' !in key
    ensures QueryPairs(pre + key, |pre|) == [(key, "")]
  {
    var s := pre + key;
    FindFromNone(s, {'='}, |pre|);
    assert s[|pre|..] == key;
    assert NextPair(s, |pre|) == ((key, ""), None);
  }

  /** A request without "if" gets the baseline interface exactly when the resource has a type. */
  lemma DefaultInterface(info: ResourceInfo, query: Option<string>)
    requires query.None?
    ensures "if" in QueryMap(info, query) <==> TypeCount(info) != 0
    ensures "if" in QueryMap(info, query) ==> QueryMap(info, query)["if"] == BaselineInterface
  {
  }

  // ---------------------------------------------------------------------
  // IsValidRequest, CreatePayload
  // ---------------------------------------------------------------------

  /**
   * IsValidRequest. `None` stands for the dereference of `queryMap.find("if")`
   * when the query has no "if" (no default was added because the resource
   * has no type) and the resource has interfaces to compare it with.
   */
  method IsValidRequest(info: ResourceInfo, query: Option<string>) returns (r: Option<bool>)
    ensures var m := QueryMap(info, query);
            var nIfs, nTypes := InterfaceCount(info), TypeCount(info);
            && ("if" !in m && nIfs > 0 <==> r.None?)
            && (r.Some? ==>
                  (r.value <==> "if" in m && m["if"] in info.interfaces[..nIfs]
                                && ("rt" in m ==> m["rt"] in info.types[..nTypes])))
  {
    var m := ParseQuery(info, query);
    var n := InterfaceCount(info);
    var hasItf := false;
    var i := 0;
    while i < n
      invariant i <= n <= |info.interfaces|
      invariant !hasItf
      invariant "if" in m ==> m["if"] !in info.interfaces[..i]
      invariant i > 0 ==> "if" in m
    {
      if "if" !in m {
        return None;
      }
      if m["if"] == info.interfaces[i] {
        hasItf := true;
        break;
      }
      assert info.interfaces[..i + 1] == info.interfaces[..i] + [info.interfaces[i]];
      i := i + 1;
    }
    assert hasItf ==> "if" in m && m["if"] in info.interfaces[..n];
    if !hasItf {
      return Some(false);
    }
    if "rt" in m {
      var nt := TypeCount(info);
      var hasRt := false;
      var j := 0;
      while j < nt
        invariant j <= nt <= |info.types|
        invariant !hasRt
        invariant m["rt"] !in info.types[..j]
      {
        if m["rt"] == info.types[j] {
          hasRt := true;
          break;
        }
        assert info.types[..j + 1] == info.types[..j] + [info.types[j]];
        j := j + 1;
      }
      assert hasRt ==> m["rt"] in info.types[..nt];
      if !hasRt {
        return Some(false);
      }
    }
    return Some(true);
  }

  /** A resource with at least one (and fewer than 256) types always gets a verdict: the "if" default applies. */
  lemma TypedResourceHasInterface(info: ResourceInfo, query: Option<string>)
    requires 0 < |info.types| < 256
    ensures "if" in QueryMap(info, query)
  {
  }

  /** strstr(query, s) != NULL on the C string. */
  predicate Contains(s: string, t: string) {
    exists i :: 0 <= i <= |s| - |t| && OccursAt(s, t, i)
  }

  predicate OccursAt(s: string, t: string, i: int)
    requires 0 <= i <= |s| - |t|
  {
    s[i..i + |t|] == t
  }

  const DefaultInterfaceQuery: string := "if=oic.if.baseline"

  /**
   * CreatePayload: an empty representation, with the resource's types and
   * interfaces added when the query asks for the baseline interface.
   */
  function CreatePayload(info: ResourceInfo, query: Option<string>): (p: Payload)
    ensures p.uri.None? && p.types == [] && p.interfaces == []
    ensures query.Some? && Contains(CPrefix(query.value), DefaultInterfaceQuery) ==>
              GetStringArray(p, "rt") == Some(info.types[..TypeCount(info)])
              && GetStringArray(p, "if") == Some(info.interfaces[..InterfaceCount(info)])
              && |p.members| == 2
    ensures !(query.Some? && Contains(CPrefix(query.value), DefaultInterfaceQuery)) ==> p == Empty
  {
    if query.Some? && Contains(CPrefix(query.value), DefaultInterfaceQuery) then
      var withTypes := Set(Empty, "rt", StrArray(info.types[..TypeCount(info)]));
      Set(withTypes, "if", StrArray(info.interfaces[..InterfaceCount(info)]))
    else Empty
  }

  // ---------------------------------------------------------------------
  // ParseLink
  // ---------------------------------------------------------------------

  /** The endpoints parsed in order; the first that fails to parse fails them all. */
  function ParsedEndpoints(os: seq<Payload>, parseEndpoint: Payload -> Option<Endpoint>): (r: Option<seq<Endpoint>>)
    ensures r.Some? <==> forall i :: 0 <= i < |os| ==> parseEndpoint(os[i]).Some?
    ensures r.Some? ==> |r.value| == |os| && forall i :: 0 <= i < |os| ==> r.value[i] == parseEndpoint(os[i]).value
  {
    if |os| == 0 then Some([])
    else match parseEndpoint(os[|os| - 1])
      case None => None
      case Some(ep) =>
        match ParsedEndpoints(os[..|os| - 1], parseEndpoint)
        case None => None
        case Some(eps) => Some(eps + [ep])
  }

  /** An object's integer member, if it has one. */
  function IntOr(o: Payload, name: string, default: int): int {
    match GetInt(o, name)
    case Some(n) => n
    case None => default
  }

  /**
   * ParseLink: a link representation back into a resource payload. The
   * uri is "href" (else the payload's uri); "rel" and "anchor" when present;
   * "rt" and "if" arrays else the payload's own lists; the policy object's
   * bitmap, secure flag and port, each truncated as its C field is; the
   * endpoints, all of which must parse.
   */
  method ParseLink(payload: Payload, parseEndpoint: Payload -> Option<Endpoint>) returns (rp: Option<ResourcePayload>)
    ensures ParsedEndpoints(EndpointsOf(payload), parseEndpoint).None? <==> rp.None?
    ensures rp.Some? ==>
              var p := rp.value;
              && p.uri == LinkHref(payload)
              && p.rel == GetString(payload, "rel") && p.anchor == GetString(payload, "anchor")
              && p.types == GetStringArray(payload, "rt").GetOr(payload.types)
              && p.interfaces == GetStringArray(payload, "if").GetOr(payload.interfaces)
              && p.bitmap == PolicyBitmap(payload) && p.secure == PolicySecure(payload)
              && p.port == PolicyPort(payload)
              && p.eps == ParsedEndpoints(EndpointsOf(payload), parseEndpoint).value
  {
    var types := GetStringArray(payload, "rt").GetOr(payload.types);
    var interfaces := GetStringArray(payload, "if").GetOr(payload.interfaces);
    var bitmap, secure, port := ReadPolicy(payload);
    var eps: seq<Endpoint> := [];
    var os := EndpointsOf(payload);
    var i := 0;
    while i < |os|
      invariant i <= |os|
      invariant ParsedEndpoints(os[..i], parseEndpoint) == Some(eps)
    {
      var ep := parseEndpoint(os[i]);
      if ep.None? {
        assert ParsedEndpoints(os, parseEndpoint).None?;
        return None;
      }
      assert os[..i + 1][..i] == os[..i];
      eps := eps + [ep.value];
      i := i + 1;
    }
    assert os[..i] == os;
    rp := Some(ResourcePayload(LinkHref(payload), GetString(payload, "rel"), GetString(payload, "anchor"),
                               types, interfaces, bitmap, secure, port, eps));
  }

  /** The policy block of ParseLink: each field keeps its zero default unless the policy object has it. */
  method ReadPolicy(payload: Payload) returns (bitmap: uint8, secure: bool, port: uint16)
    ensures bitmap == PolicyBitmap(payload) && secure == PolicySecure(payload) && port == PolicyPort(payload)
  {
    bitmap, secure, port := 0, false, 0;
    var policy := GetObject(payload, "p");
    if policy.Some? {
      var n := GetInt(policy.value, "bm");
      if n.Some? { bitmap := ToU8(n.value); }
      var sec := GetBool(policy.value, "sec");
      if sec.Some? { secure := sec.value; }
      n := GetInt(policy.value, "port");
      if n.Some? { port := ToU16(n.value); }
    }
  }

  /** The "eps" object array, or none. */
  function EndpointsOf(payload: Payload): seq<Payload> {
    GetObjectArray(payload, "eps").GetOr([])
  }

  function PolicyBitmap(payload: Payload): uint8 {
    match GetObject(payload, "p")
    case None => 0
    case Some(o) => match GetInt(o, "bm") case Some(n) => ToU8(n) case None => 0
  }

  function PolicySecure(payload: Payload): bool {
    match GetObject(payload, "p")
    case None => false
    case Some(o) => GetBool(o, "sec").GetOr(false)
  }

  function PolicyPort(payload: Payload): uint16 {
    match GetObject(payload, "p")
    case None => 0
    case Some(o) => match GetInt(o, "port") case Some(n) => ToU16(n) case None => 0
  }
}
