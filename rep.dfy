/**
 * IoTivity's OCRepPayload as a value: an optional URI, the resource types and
 * interfaces, and an ordered list of named members.  Setting a member that is
 * already there replaces it in place; otherwise the member is appended, as the
 * stack's setters do.  The setters are taken to succeed on any payload; a
 * missing (NULL) payload is `None` where the bridge code can pass one.
 */
module Rep {
  import opened Wrappers

  datatype PropType = NullType | IntType | DoubleType | BoolType | StringType | ByteStringType | ObjectType | ArrayType

  /** Array elements, flattened; the dimensions live beside them in `Arr`. */
  datatype Items =
    | NullItems
    | IntItems(ints: seq<int>)
    | DoubleItems(count: nat)
    | BoolItems(bools: seq<bool>)
    | StrItems(strs: seq<string>)
    | BytesItems(blobs: seq<seq<int>>)
    | ObjItems(objs: seq<Payload>)
    | ArrayItems

  /** A member's value; doubles carry only their type. */
  datatype Value =
    | Null
    | Int(i: int)
    | Double
    | Bool(b: bool)
    | Str(s: string)
    | Bytes(bytes: seq<int>)
    | Obj(obj: Payload)
    /** An object member whose payload pointer is NULL. */
    | NullObj
    | Arr(dims: seq<nat>, items: Items)

  datatype Member = Member(name: string, value: Value)

  datatype Payload = Payload(uri: Option<string>, types: seq<string>, interfaces: seq<string>, members: seq<Member>)

  const Empty: Payload := Payload(None, [], [], [])

  function ElementType(items: Items): PropType {
    match items
    case NullItems => NullType
    case IntItems(_) => IntType
    case DoubleItems(_) => DoubleType
    case BoolItems(_) => BoolType
    case StrItems(_) => StringType
    case BytesItems(_) => ByteStringType
    case ObjItems(_) => ObjectType
    case ArrayItems => ArrayType
  }

  /** A one-dimensional string array, as `OCRepPayloadSetStringArray` with dimensions {n, 0, 0} stores it. */
  function StrArray(ss: seq<string>): Value {
    Arr([|ss|, 0, 0], StrItems(ss))
  }

  /** A one-dimensional object array. */
  function ObjArray(ps: seq<Payload>): Value {
    Arr([|ps|, 0, 0], ObjItems(ps))
  }

  function Names(p: Payload): (r: seq<string>)
    ensures |r| == |p.members|
    ensures forall i :: 0 <= i < |r| ==> r[i] == p.members[i].name
  {
    seq(|p.members|, i requires 0 <= i < |p.members| => p.members[i].name)
  }

  /** The index of the first member called `name` at or after `i`. */
  function IndexFrom(ms: seq<Member>, name: string, i: nat): (r: Option<nat>)
    requires i <= |ms|
    decreases |ms| - i
    ensures r.Some? ==> i <= r.value < |ms| && ms[r.value].name == name
                        && forall j :: i <= j < r.value ==> ms[j].name != name
    ensures r.None? ==> forall j :: i <= j < |ms| ==> ms[j].name != name
  {
    if i == |ms| then None
    else if ms[i].name == name then Some(i)
    else IndexFrom(ms, name, i + 1)
  }

  /** `OCRepPayloadGetProp*`'s lookup: the first member called `name`. */
  function Find(p: Payload, name: string): (r: Option<Value>)
  {
    var k := IndexFrom(p.members, name, 0);
    if k.Some? then Some(p.members[k.value].value) else None
  }

  /** The first member carrying `name` is the one found. */
  lemma FindAt(p: Payload, name: string, j: nat)
    requires j < |p.members| && p.members[j].name == name
    requires forall i :: 0 <= i < j ==> p.members[i].name != name
    ensures Find(p, name) == Some(p.members[j].value)
  {
  }

  /** A name is found exactly when some member carries it. */
  lemma FindIn(p: Payload, name: string)
    ensures Find(p, name).Some? <==> name in Names(p)
  {
    var k := IndexFrom(p.members, name, 0);
    if k.None? {
      assert forall j :: 0 <= j < |p.members| ==> Names(p)[j] != name;
    }
  }

  /** `OCRepPayloadSetProp*`: replace the first member called `name` in place, or append one. */
  function Set(p: Payload, name: string, v: Value): (r: Payload)
    ensures r.uri == p.uri && r.types == p.types && r.interfaces == p.interfaces
    ensures Find(r, name) == Some(v)
    ensures forall n :: n != name ==> Find(r, n) == Find(p, n)
  {
    var k := IndexFrom(p.members, name, 0);
    var r := if k.Some? then p.(members := p.members[k.value := Member(name, v)])
             else p.(members := p.members + [Member(name, v)]);
    FindAfterSet(p, name, v, k, r);
    r
  }

  /** Setting a name already present keeps the key order; a new name goes last. */
  lemma SetNames(p: Payload, name: string, v: Value)
    ensures Names(Set(p, name, v)) == if name in Names(p) then Names(p) else Names(p) + [name]
  {
    var r := Set(p, name, v);
    assert Names(r) == if name in Names(p) then Names(p) else Names(p) + [name];
  }

  lemma FindAfterSet(p: Payload, name: string, v: Value, k: Option<nat>, r: Payload)
    requires k == IndexFrom(p.members, name, 0)
    requires r == if k.Some? then p.(members := p.members[k.value := Member(name, v)])
                  else p.(members := p.members + [Member(name, v)])
    ensures Find(r, name) == Some(v)
    ensures forall n :: n != name ==> Find(r, n) == Find(p, n)
  {
    forall n | n != name ensures Find(r, n) == Find(p, n) {
      IndexFromUnaffected(p.members, r.members, name, n, 0);
    }
    IndexFromAfterSet(p.members, r.members, name, 0, k);
  }

  /** Members other than `name` are found where they were. */
  lemma {:induction false} IndexFromUnaffected(ms: seq<Member>, ns: seq<Member>, name: string, n: string, i: nat)
    requires n != name && i <= |ms| <= |ns| <= |ms| + 1
    requires forall j :: 0 <= j < |ms| ==> (ms[j].name == name <==> ns[j].name == name)
    requires forall j :: 0 <= j < |ms| && ms[j].name != name ==> ns[j] == ms[j]
    requires |ns| == |ms| + 1 ==> ns[|ms|].name == name
    ensures IndexFrom(ns, n, i) == IndexFrom(ms, n, i)
    ensures IndexFrom(ms, n, i).Some? ==> ns[IndexFrom(ms, n, i).value] == ms[IndexFrom(ms, n, i).value]
    decreases |ms| - i
  {
    if i == |ms| {
      if |ns| == |ms| + 1 {
        assert IndexFrom(ns, n, i + 1) == None;
      }
    } else {
      IndexFromUnaffected(ms, ns, name, n, i + 1);
    }
  }

  lemma {:induction false} IndexFromAfterSet(ms: seq<Member>, ns: seq<Member>, name: string, i: nat, k: Option<nat>)
    requires i <= |ms|
    requires k == IndexFrom(ms, name, i)
    requires k.Some? ==> |ns| == |ms| && ns[k.value].name == name && forall j :: 0 <= j < |ms| && j != k.value ==> ns[j] == ms[j]
    requires k.None? ==> |ns| == |ms| + 1 && ns[..|ms|] == ms && ns[|ms|].name == name
    ensures IndexFrom(ns, name, i) == if k.Some? then k else Some(|ms|)
    decreases |ms| - i
  {
    if i == |ms| {
    } else if ms[i].name == name {
    } else {
      assert ns[i] == ms[i];
      IndexFromAfterSet(ms, ns, name, i + 1, k);
    }
  }

  // ---------------------------------------------------------------------
  // Typed getters: each succeeds only on a member of its own type
  // ---------------------------------------------------------------------

  function GetString(p: Payload, name: string): (r: Option<string>)
  {
    match Find(p, name)
    case Some(Str(s)) => Some(s)
    case _ => None
  }

  function GetInt(p: Payload, name: string): (r: Option<int>)
  {
    match Find(p, name)
    case Some(Int(i)) => Some(i)
    case _ => None
  }

  function GetBool(p: Payload, name: string): (r: Option<bool>)
  {
    match Find(p, name)
    case Some(Bool(b)) => Some(b)
    case _ => None
  }

  /**
   * The value `OCRepPayloadSetPropObjectAsOwner` stores for a payload
   * pointer: the object, or a NULL object, which it stores as readily.
   */
  function ObjOrNull(p: Option<Payload>): (v: Value)
    ensures v.Obj? <==> p.Some?
    ensures p.Some? ==> v.obj == p.value
  {
    if p.Some? then Obj(p.value) else NullObj
  }

  function GetObject(p: Payload, name: string): (r: Option<Payload>)
  {
    match Find(p, name)
    case Some(Obj(o)) => Some(o)
    case _ => None
  }

  function GetStringArray(p: Payload, name: string): (r: Option<seq<string>>)
  {
    match Find(p, name)
    case Some(Arr(_, StrItems(ss))) => Some(ss)
    case _ => None
  }

  function GetObjectArray(p: Payload, name: string): (r: Option<seq<Payload>>)
  {
    match Find(p, name)
    case Some(Arr(_, ObjItems(ps))) => Some(ps)
    case _ => None
  }

  /** A second set of the same name replaces the first one's value in place. */
  lemma SetTwice(p: Payload, name: string, x: Value, y: Value)
    ensures Set(Set(p, name, x), name, y) == Set(p, name, y)
  {
    var ms := p.members;
    var k := IndexFrom(ms, name, 0);
    var q := Set(p, name, x);
    if k.Some? {
      IndexFromAfterSet(ms, q.members, name, 0, k);
      assert q.members[k.value := Member(name, y)] == ms[k.value := Member(name, y)];
    } else {
      IndexFromAfterSet(ms, q.members, name, 0, k);
      assert q.members[|ms| := Member(name, y)] == ms + [Member(name, y)];
    }
  }

  /** A name not yet present is appended at the end. */
  lemma SetAppends(p: Payload, name: string, v: Value)
    requires name !in Names(p)
    ensures Set(p, name, v).members == p.members + [Member(name, v)]
  {
  }
}
