/**
 * Schema synthesis for OCF introspection: a JSON-schema-like payload derived
 * from a sample representation (`SetPropertiesSchema`), the per-type
 * definition and per-URI path objects, and the fixed Swagger 2.0 (OpenAPI
 * 2.0) skeleton with its grow-and-retry encoding.
 */
module Introspection {
  import opened Wrappers
  import opened Text
  import opened Rep

  // ---------------------------------------------------------------------
  // SetPropertiesSchema
  // ---------------------------------------------------------------------

  /** `{type: t}` */
  function TypeSchema(t: string): Payload {
    Set(Empty, "type", Str(t))
  }

  /** `{media: {binaryEncoding: "base64"}, type: "string"}` */
  function ByteStringSchema(): Payload {
    Set(Set(Empty, "media", Obj(Set(Empty, "binaryEncoding", Str("base64")))), "type", Str("string"))
  }

  /** `{properties: props, type: "object"}` */
  function ObjectSchema(props: Payload): Payload {
    Set(Set(Empty, "properties", Obj(props)), "type", Str("object"))
  }

  /** `{items: inner, type: "array"}` */
  function ArrayLevel(inner: Payload): Payload {
    Set(Set(Empty, "items", Obj(inner)), "type", Str("array"))
  }

  /** `k` array levels around `inner`. */
  function Nest(k: nat, inner: Payload): Payload {
    if k == 0 then inner else ArrayLevel(Nest(k - 1, inner))
  }

  /** The schema of a value of a type without inner structure; None for the types that have none. */
  function ScalarSchema(t: PropType): (r: Option<Payload>)
    ensures r.Some? <==> t in {IntType, DoubleType, BoolType, StringType, ByteStringType}
  {
    match t
    case IntType => Some(TypeSchema("integer"))
    case DoubleType => Some(TypeSchema("number"))
    case BoolType => Some(TypeSchema("boolean"))
    case StringType => Some(TypeSchema("string"))
    case ByteStringType => Some(ByteStringSchema())
    case _ => None
  }

  function TypeOf(v: Value): PropType {
    match v
    case Null => NullType
    case Int(_) => IntType
    case Double => DoubleType
    case Bool(_) => BoolType
    case Str(_) => StringType
    case Bytes(_) => ByteStringType
    case Obj(_) => ObjectType
    case NullObj => ObjectType
    case Arr(_, _) => ArrayType
  }

  /** How many array levels the loop emits: leading non-zero dimensions, at most MAX_REP_ARRAY_DEPTH = 3. */
  function ArrayDepth(dims: seq<nat>): (k: nat)
    ensures k <= 3 && k <= |dims|
    ensures forall i :: 0 <= i < k ==> dims[i] != 0
    ensures k < 3 && k < |dims| ==> dims[k] == 0
  {
    if |dims| == 0 || dims[0] == 0 then 0
    else if |dims| == 1 || dims[1] == 0 then 1
    else if |dims| == 2 || dims[2] == 0 then 2
    else 3
  }

  /** The two-argument overload's per-member switch: the schema put under the member's name. */
  function MemberSchema(v: Value): Option<Payload>
    decreases v, 0
  {
    match v
    case Null => None
    case Obj(o) =>
      (match MembersSchema(Empty, o, 0)
       case None => None
       case Some(s) => Some(ObjectSchema(s)))
    case NullObj => Some(ObjectSchema(Empty))
    case Arr(dims, items) =>
      (match ElementSchema(items)
       case None => None
       case Some(e) => Some(Nest(ArrayDepth(dims), e)))
    case _ => ScalarSchema(TypeOf(v))
  }

  /**
   * The three-argument overload, applied to the innermost array level: the
   * element type's schema, with the first element standing for an array of
   * objects (an empty one when there is none).
   */
  function ElementSchema(items: Items): Option<Payload>
    decreases items, 0
  {
    match items
    case ObjItems(ps) =>
      if |ps| == 0 then Some(ObjectSchema(Empty))
      else
        (match MembersSchema(Empty, ps[0], 0)
         case None => None
         case Some(s) => Some(ObjectSchema(s)))
    case _ => ScalarSchema(ElementType(items))
  }

  /** The loop over `obj`'s members from `i` on, each schema set into `parent` under the member's name. */
  function MembersSchema(parent: Payload, o: Payload, i: nat): Option<Payload>
    requires i <= |o.members|
    decreases o, |o.members| - i
  {
    if i == |o.members| then Some(parent)
    else
      match MemberSchema(o.members[i].value)
      case None => None
      case Some(s) => MembersSchema(Set(parent, o.members[i].name, Obj(s)), o, i + 1)
  }

  /** `SetPropertiesSchema(parent, obj)`: a NULL object succeeds and leaves `parent` alone. */
  function PropertiesSchema(parent: Payload, obj: Option<Payload>): Option<Payload> {
    if obj.None? then Some(parent) else MembersSchema(parent, obj.value, 0)
  }

  /** The schema of each scalar member type, as the switch maps them. */
  lemma ScalarMemberSchemas(n: int, b: bool, s: string, bytes: seq<int>)
    ensures MemberSchema(Int(n)) == Some(TypeSchema("integer"))
    ensures MemberSchema(Double) == Some(TypeSchema("number"))
    ensures MemberSchema(Bool(b)) == Some(TypeSchema("boolean"))
    ensures MemberSchema(Str(s)) == Some(TypeSchema("string"))
    ensures var bs := MemberSchema(Bytes(bytes)).value;
            GetString(bs, "type") == Some("string")
            && GetObject(bs, "media") == Some(Set(Empty, "binaryEncoding", Str("base64")))
    ensures MemberSchema(Null) == None
  {
  }

  /** The schema loop succeeds exactly when every remaining member has a schema. */
  lemma {:induction false} MembersSchemaSucceeds(parent: Payload, o: Payload, i: nat)
    requires i <= |o.members|
    ensures MembersSchema(parent, o, i).Some?
        <==> forall j :: i <= j < |o.members| ==> MemberSchema(o.members[j].value).Some?
    decreases |o.members| - i
  {
    if i < |o.members| {
      MembersSchemaStep(parent, o, i);
      var s := MemberSchema(o.members[i].value);
      if s.Some? {
        var next := Set(parent, o.members[i].name, Obj(s.value));
        MembersSchemaSucceeds(next, o, i + 1);
        assert (forall j :: i <= j < |o.members| ==> MemberSchema(o.members[j].value).Some?)
           <==> (forall j :: i + 1 <= j < |o.members| ==> MemberSchema(o.members[j].value).Some?);
      }
    }
  }

  /** The schema loop unfolded once. */
  lemma MembersSchemaStep(parent: Payload, o: Payload, i: nat)
    requires i < |o.members|
    ensures var s := MemberSchema(o.members[i].value);
            MembersSchema(parent, o, i)
            == if s.None? then None else MembersSchema(Set(parent, o.members[i].name, Obj(s.value)), o, i + 1)
  {
  }

  /** A null member anywhere fails the whole schema; a NULL object gives back `parent`. */
  lemma NullMemberFails(parent: Payload, o: Payload, j: nat)
    requires j < |o.members| && o.members[j].value == Null
    ensures PropertiesSchema(parent, Some(o)) == None
    ensures PropertiesSchema(parent, None) == Some(parent)
  {
    MembersSchemaSucceeds(parent, o, 0);
  }

  predicate DistinctNames(ms: seq<Member>) {
    forall i, j :: 0 <= i < j < |ms| ==> ms[i].name != ms[j].name
  }

  /**
   * With distinct member names, each member's schema sits under its own name,
   * and names the loop does not reach keep what `parent` had.
   */
  lemma {:induction false} MembersSchemaEntries(parent: Payload, o: Payload, i: nat)
    requires i <= |o.members| && DistinctNames(o.members)
    requires MembersSchema(parent, o, i).Some?
    ensures var s := MembersSchema(parent, o, i).value;
            && (forall j :: i <= j < |o.members| ==>
                  MemberSchema(o.members[j].value).Some?
                  && Find(s, o.members[j].name) == Some(Obj(MemberSchema(o.members[j].value).value)))
            && (forall n :: (forall j :: i <= j < |o.members| ==> o.members[j].name != n) ==> Find(s, n) == Find(parent, n))
    decreases |o.members| - i
  {
    if i < |o.members| {
      var m := o.members[i];
      MembersSchemaStep(parent, o, i);
      var s := MemberSchema(m.value);
      var next := Set(parent, m.name, Obj(s.value));
      MembersSchemaEntries(next, o, i + 1);
      var r := MembersSchema(next, o, i + 1).value;
      assert forall j :: i < j < |o.members| ==> o.members[j].name != m.name;
      assert Find(r, m.name) == Find(next, m.name);
    }
  }

  /** With distinct names not already in `parent`, the schema's keys follow the members' order. */
  lemma {:induction false} MembersSchemaKeys(parent: Payload, o: Payload, i: nat)
    requires i <= |o.members| && DistinctNames(o.members)
    requires forall j :: i <= j < |o.members| ==> o.members[j].name !in Names(parent)
    requires MembersSchema(parent, o, i).Some?
    ensures Names(MembersSchema(parent, o, i).value) == Names(parent) + Names(o)[i..]
    decreases |o.members| - i
  {
    if i == |o.members| {
      assert Names(o)[i..] == [];
    } else {
      var m := o.members[i];
      MembersSchemaStep(parent, o, i);
      var next := Set(parent, m.name, Obj(MemberSchema(m.value).value));
      NamesAfterSet(parent, o, i, next);
      MembersSchemaKeys(next, o, i + 1);
      NamesTail(o, i);
    }
  }

  /** Setting the member at `i`, new to `parent`, appends its name and keeps the later names new. */
  lemma NamesAfterSet(parent: Payload, o: Payload, i: nat, next: Payload)
    requires i < |o.members| && DistinctNames(o.members)
    requires forall j :: i <= j < |o.members| ==> o.members[j].name !in Names(parent)
    requires MemberSchema(o.members[i].value).Some?
    requires next == Set(parent, o.members[i].name, Obj(MemberSchema(o.members[i].value).value))
    ensures Names(next) == Names(parent) + [o.members[i].name]
    ensures forall j :: i + 1 <= j < |o.members| ==> o.members[j].name !in Names(next)
  {
    var m := o.members[i];
    SetNames(parent, m.name, Obj(MemberSchema(m.value).value));
    forall j | i + 1 <= j < |o.members| ensures o.members[j].name !in Names(next) {
      assert o.members[j].name != m.name;
    }
  }

  lemma NamesTail(o: Payload, i: nat)
    requires i < |o.members|
    ensures Names(o)[i..] == [o.members[i].name] + Names(o)[i + 1..]
  {
  }

  /**
   * An object member is `{properties: <its schema>, type: "object"}`, and it
   * has a schema exactly when its members do; a member holding a NULL object
   * is `{properties: {}, type: "object"}`, since the walk over a NULL object
   * succeeds without adding anything.
   */
  lemma ObjectMemberSchema(o: Payload)
    ensures MemberSchema(Obj(o)).Some? <==> MembersSchema(Empty, o, 0).Some?
    ensures MembersSchema(Empty, o, 0).Some? ==>
            var s := MemberSchema(Obj(o)).value;
            GetString(s, "type") == Some("object")
            && GetObject(s, "properties") == MembersSchema(Empty, o, 0)
    ensures var n := MemberSchema(NullObj);
            n.Some? && GetString(n.value, "type") == Some("object")
            && GetObject(n.value, "properties") == PropertiesSchema(Empty, None)
            && Names(n.value) == ["properties", "type"]
  {
  }

  /** `getItems(p, k)`: follow the "items" member `k` times. */
  function ItemsAt(p: Payload, k: nat): Option<Payload> {
    if k == 0 then Some(p)
    else match GetObject(p, "items")
      case None => None
      case Some(q) => ItemsAt(q, k - 1)
  }

  /** `Nest(k, e)` is `k` levels typed "array", each holding the next under "items", ending in `e`. */
  lemma {:induction false} NestLevels(k: nat, e: Payload)
    ensures ItemsAt(Nest(k, e), k) == Some(e)
    ensures forall j :: 0 <= j < k ==> ItemsAt(Nest(k, e), j).Some?
                                        && GetString(ItemsAt(Nest(k, e), j).value, "type") == Some("array")
  {
    if k > 0 {
      NestLevels(k - 1, e);
      var top := Nest(k, e);
      assert GetObject(top, "items") == Some(Nest(k - 1, e));
      assert GetString(top, "type") == Some("array");
      forall j | 0 < j < k
        ensures ItemsAt(top, j) == ItemsAt(Nest(k - 1, e), j - 1)
      {
      }
    }
  }

  /**
   * An array member becomes one "array" level per leading non-zero dimension
   * around the element schema; null- and array-typed elements fail.
   */
  lemma ArrayMemberSchema(dims: seq<nat>, items: Items)
    ensures ElementType(items) in {NullType, ArrayType} ==> MemberSchema(Arr(dims, items)) == None
    ensures ElementSchema(items).Some? ==>
              var s := MemberSchema(Arr(dims, items)).value;
              ItemsAt(s, ArrayDepth(dims)) == ElementSchema(items)
              && forall j :: 0 <= j < ArrayDepth(dims) ==>
                   ItemsAt(s, j).Some? && GetString(ItemsAt(s, j).value, "type") == Some("array")
  {
    if ElementSchema(items).Some? {
      NestLevels(ArrayDepth(dims), ElementSchema(items).value);
    }
  }

  // ---------------------------------------------------------------------
  // IntrospectDefinition
  // ---------------------------------------------------------------------

  /** `{readOnly: true, type: "array", default: [rt]}` */
  function ResourceTypeSchema(rt: string): Payload {
    Set(Set(Set(Empty, "readOnly", Bool(true)), "type", Str("array")), "default", StrArray([rt]))
  }

  /**
   * `IntrospectDefinition`: `{type: "object", properties: {rt: ..., <payload schema>}}`,
   * or None when the payload schema fails.  The interface enum it builds is
   * never attached to the result.
   */
  function IntrospectDefinition(payload: Option<Payload>, rt: string, interfaces: seq<string>): (r: Option<Payload>)
    ensures r.Some? <==> PropertiesSchema(Set(Empty, "rt", Obj(ResourceTypeSchema(rt))), payload).Some?
    ensures r.Some? ==> GetString(r.value, "type") == Some("object")
    ensures r.Some? ==>
              GetObject(r.value, "properties") == PropertiesSchema(Set(Empty, "rt", Obj(ResourceTypeSchema(rt))), payload)
  {
    var definition := Set(Empty, "type", Str("object"));
    var properties := Set(Empty, "rt", Obj(ResourceTypeSchema(rt)));
    var itf := Set(Set(Empty, "readOnly", Bool(true)), "type", Str("array"));
    var items := Set(Set(Empty, "type", Str("string")), "enum", StrArray(interfaces));
    match PropertiesSchema(properties, payload)
    case None => None
    case Some(props) => Some(Set(definition, "properties", Obj(props)))
  }

  /**
   * A definition is built exactly when every member of the payload has a
   * schema, NULL objects included (a NULL payload always gives one), so only
   * NULL members and arrays of NULL or of arrays make it fail.
   */
  lemma DefinitionSucceeds(o: Payload, rt: string, interfaces: seq<string>)
    ensures IntrospectDefinition(Some(o), rt, interfaces).Some?
        <==> forall j :: 0 <= j < |o.members| ==> MemberSchema(o.members[j].value).Some?
    ensures IntrospectDefinition(None, rt, interfaces).Some?
  {
    MembersSchemaSucceeds(Set(Empty, "rt", Obj(ResourceTypeSchema(rt))), o, 0);
  }

  /** The definition does not depend on the interfaces passed in. */
  lemma DefinitionIgnoresInterfaces(payload: Option<Payload>, rt: string, a: seq<string>, b: seq<string>)
    ensures IntrospectDefinition(payload, rt, a) == IntrospectDefinition(payload, rt, b)
  {
  }

  /**
   * The "rt" property is the resource-type schema unless the payload itself
   * has a member called "rt", whose schema then replaces it.
   */
  lemma DefinitionResourceType(o: Payload, rt: string)
    requires DistinctNames(o.members)
    requires IntrospectDefinition(Some(o), rt, []).Some?
    ensures var props := GetObject(IntrospectDefinition(Some(o), rt, []).value, "properties").value;
            && ("rt" !in Names(o) ==> Find(props, "rt") == Some(Obj(ResourceTypeSchema(rt))))
            && (forall j :: 0 <= j < |o.members| ==>
                  MemberSchema(o.members[j].value).Some?
                  && Find(props, o.members[j].name) == Some(Obj(MemberSchema(o.members[j].value).value)))
  {
    var parent := Set(Empty, "rt", Obj(ResourceTypeSchema(rt)));
    MembersSchemaEntries(parent, o, 0);
  }

  // ---------------------------------------------------------------------
  // IntrospectPath
  // ---------------------------------------------------------------------

  /** The interfaces offered for POST: all but oic.if.ll, oic.if.r and oic.if.s, in order. */
  function PostInterfaces(interfaces: seq<string>): (r: seq<string>)
    ensures forall x :: x in r <==> x in interfaces && x !in {"oic.if.ll", "oic.if.r", "oic.if.s"}
    ensures |r| <= |interfaces|
  {
    if |interfaces| == 0 then []
    else
      var rest := PostInterfaces(interfaces[1..]);
      if interfaces[0] in {"oic.if.ll", "oic.if.r", "oic.if.s"} then rest else [interfaces[0]] + rest
  }

  /** One `{$ref: "#/definitions/<rt>"}` per resource type, in order. */
  function Refs(resourceTypes: seq<string>): (r: seq<Payload>)
    ensures |r| == |resourceTypes|
    ensures forall i :: 0 <= i < |r| ==> GetString(r[i], "$ref") == Some("#/definitions/" + resourceTypes[i])
  {
    seq(|resourceTypes|, i requires 0 <= i < |resourceTypes| => Set(Empty, "$ref", Str("#/definitions/" + resourceTypes[i])))
  }

  /** The "if" query parameter with the given enum. */
  function IfParameter(enum: seq<string>): Payload {
    Set(Set(Set(Set(Empty, "name", Str("if")), "in", Str("query")), "type", Str("string")), "enum", StrArray(enum))
  }

  function BodySchema(resourceTypes: seq<string>): Payload {
    Set(Empty, "oneOf", ObjArray(Refs(resourceTypes)))
  }

  function BodyParameter(resourceTypes: seq<string>): Payload {
    Set(Set(Set(Empty, "name", Str("body")), "in", Str("body")), "schema", Obj(BodySchema(resourceTypes)))
  }

  function Responses(resourceTypes: seq<string>): Payload {
    Set(Empty, "200", Obj(Set(Set(Empty, "description", Str("")), "schema", Obj(BodySchema(resourceTypes)))))
  }

  /** `OCRepPayloadSetPropObjectArray` on a possibly NULL payload: NULL fails. */
  function SetObjectArray(p: Option<Payload>, name: string, ps: seq<Payload>): (r: Option<Payload>)
    ensures r.Some? <==> p.Some?
  {
    if p.None? then None else Some(Set(p.value, name, ObjArray(ps)))
  }

  /** The POST parameters: "if" with the POST interfaces, then the body. */
  function PostParameters(resourceTypes: seq<string>, interfaces: seq<string>): seq<Payload> {
    [IfParameter(PostInterfaces(interfaces)), BodyParameter(resourceTypes)]
  }

  /** The GET operation: the "if" parameter re-used with every interface in its enum, and the responses. */
  function GetOperation(ifParameter: Payload, resourceTypes: seq<string>, interfaces: seq<string>): Payload {
    Set(Set(Empty, "parameters", ObjArray([Set(ifParameter, "enum", StrArray(interfaces))])), "responses", Obj(Responses(resourceTypes)))
  }

  /** `{post: post, get: get}` */
  function PathOf(post: Payload, get: Payload): Payload {
    Set(Set(Empty, "post", Obj(post)), "get", Obj(get))
  }

  /** The rest of `IntrospectPath` once the POST parameters are attached to `verb`. */
  function PathFrom(verb: Option<Payload>, resourceTypes: seq<string>, interfaces: seq<string>): (r: Option<Payload>)
    ensures r.Some? <==> verb.Some?
  {
    var parameters := PostParameters(resourceTypes, interfaces);
    match SetObjectArray(verb, "parameters", parameters)
    case None => None
    case Some(post) =>
      Some(PathOf(Set(post, "responses", Obj(Responses(resourceTypes))), GetOperation(parameters[0], resourceTypes, interfaces)))
  }

  /**
   * `IntrospectPath` as written: `method` is still NULL (line 470) when the
   * POST parameters are attached to it, so the call fails and the function
   * returns NULL before the GET half is reached.
   */
  function IntrospectPathAsWritten(resourceTypes: seq<string>, interfaces: seq<string>): (r: Option<Payload>) {
    PathFrom(None, resourceTypes, interfaces)
  }

  lemma IntrospectPathAsWrittenFails(resourceTypes: seq<string>, interfaces: seq<string>)
    ensures IntrospectPathAsWritten(resourceTypes, interfaces) == None
  {
  }

  /** `IntrospectPath` with `method` created before use. */
  function IntrospectPath(resourceTypes: seq<string>, interfaces: seq<string>): (r: Option<Payload>)
    ensures r.Some?
  {
    PathFrom(Some(Empty), resourceTypes, interfaces)
  }

  lemma PathOfVerbs(post: Payload, get: Payload)
    ensures GetObject(PathOf(post, get), "post") == Some(post)
    ensures GetObject(PathOf(post, get), "get") == Some(get)
  {
  }

  /** An operation built as parameters-then-responses holds both. */
  lemma OperationMembers(ps: seq<Payload>, resourceTypes: seq<string>)
    ensures var op := Set(Set(Empty, "parameters", ObjArray(ps)), "responses", Obj(Responses(resourceTypes)));
            GetObjectArray(op, "parameters") == Some(ps) && GetObject(op, "responses") == Some(Responses(resourceTypes))
  {
  }

  /**
   * POST takes the "if" parameter with the read-only interfaces dropped and
   * the body parameter; GET takes only the "if" parameter, with every
   * interface; both answer with the same responses.
   */
  lemma IntrospectPathOperations(resourceTypes: seq<string>, interfaces: seq<string>)
    ensures var path := IntrospectPath(resourceTypes, interfaces).value;
            && GetObject(path, "post").Some? && GetObject(path, "get").Some?
            && GetObjectArray(GetObject(path, "post").value, "parameters")
               == Some([IfParameter(PostInterfaces(interfaces)), BodyParameter(resourceTypes)])
            && GetObjectArray(GetObject(path, "get").value, "parameters") == Some([IfParameter(interfaces)])
            && GetObject(GetObject(path, "post").value, "responses") == Some(Responses(resourceTypes))
            && GetObject(GetObject(path, "get").value, "responses") == Some(Responses(resourceTypes))
  {
    var parameters := PostParameters(resourceTypes, interfaces);
    var post := Set(Set(Empty, "parameters", ObjArray(parameters)), "responses", Obj(Responses(resourceTypes)));
    var get := GetOperation(parameters[0], resourceTypes, interfaces);
    assert IntrospectPath(resourceTypes, interfaces) == Some(PathOf(post, get));
    PathOfVerbs(post, get);
    OperationMembers(parameters, resourceTypes);
    var base := Set(Set(Set(Empty, "name", Str("if")), "in", Str("query")), "type", Str("string"));
    SetTwice(base, "enum", StrArray(PostInterfaces(interfaces)), StrArray(interfaces));
    OperationMembers([IfParameter(interfaces)], resourceTypes);
  }

  /** The "if" enum is the interface list given; oneOf is one reference per resource type. */
  lemma IntrospectPathEnums(resourceTypes: seq<string>, interfaces: seq<string>)
    ensures GetStringArray(IfParameter(interfaces), "enum") == Some(interfaces)
    ensures GetObject(BodyParameter(resourceTypes), "schema") == Some(BodySchema(resourceTypes))
    ensures GetObjectArray(BodySchema(resourceTypes), "oneOf") == Some(Refs(resourceTypes))
  {
    assert Find(IfParameter(interfaces), "enum") == Some(StrArray(interfaces));
    assert Find(BodyParameter(resourceTypes), "schema") == Some(Obj(BodySchema(resourceTypes)));
    assert Find(BodySchema(resourceTypes), "oneOf") == Some(ObjArray(Refs(resourceTypes)));
  }

  // ---------------------------------------------------------------------
  // Introspect and SetIntrospectionData
  // ---------------------------------------------------------------------

  /** The document `Introspect` encodes: Swagger "2.0" with empty paths and definitions. */
  function Skeleton(title: string, version: string): Payload {
    var info := Payload(None, [], [], [Member("title", Str(title)), Member("version", Str(version))]);
    Payload(None, [], [], [
      Member("swagger", Str("2.0")),
      Member("info", Obj(info)),
      Member("schemes", StrArray(["http"])),
      Member("consumes", StrArray(["application/json"])),
      Member("produces", StrArray(["application/json"])),
      Member("paths", Obj(Empty)),
      Member("definitions", Obj(Empty))])
  }

  datatype CborError = NoError | OutOfMemory | InternalError

  datatype Encoding = Encoding(err: CborError, size: nat, out: Option<seq<uint8>>)

  /**
   * `Introspect` into a buffer of `outSize` bytes, the CBOR encoder being
   * `encode` and `resourcesKnown` whether `OCGetNumberOfResources` succeeds:
   * an internal error leaves the size alone; running out of room adds the
   * missing bytes to it; success sets it to the encoded length.
   */
  function Introspect(title: string, version: string, outSize: nat, resourcesKnown: bool,
                      encode: Payload -> seq<uint8>): (r: Encoding)
    ensures r.err == NoError <==> resourcesKnown && |encode(Skeleton(title, version))| <= outSize
    ensures r.err == OutOfMemory <==> resourcesKnown && |encode(Skeleton(title, version))| > outSize
    ensures r.err != InternalError ==> r.size == |encode(Skeleton(title, version))|
    ensures r.err == InternalError ==> r.size == outSize
    ensures r.out.Some? <==> r.err == NoError
    ensures r.out.Some? ==> r.out.value == encode(Skeleton(title, version))
  {
    var bytes := encode(Skeleton(title, version));
    if !resourcesKnown then Encoding(InternalError, outSize, None)
    else if |bytes| > outSize then Encoding(OutOfMemory, outSize + (|bytes| - outSize), None)
    else Encoding(NoError, |bytes|, Some(bytes))
  }

  /**
   * `SetIntrospectionData`'s buffer loop: start with 1024 bytes and retry with
   * the size `Introspect` asks for until it stops running out of room.  The
   * result is what is handed to the persistent store (`size` bytes).
   */
  method SetIntrospectionData(title: string, version: string, resourcesKnown: bool,
                              encode: Payload -> seq<uint8>) returns (r: Encoding)
    ensures r.err != OutOfMemory
    ensures resourcesKnown ==> r.err == NoError && r.out == Some(encode(Skeleton(title, version)))
                               && r.size == |encode(Skeleton(title, version))|
    ensures !resourcesKnown ==> r.err == InternalError && r.size == 1024 && r.out.None?
  {
    var curSize := 1024;
    r := Introspect(title, version, curSize, resourcesKnown, encode);
    while r.err == OutOfMemory
      invariant r == Introspect(title, version, curSize, resourcesKnown, encode)
      invariant !resourcesKnown ==> curSize == 1024
      decreases |encode(Skeleton(title, version))| - curSize
    {
      curSize := r.size;
      r := Introspect(title, version, curSize, resourcesKnown, encode);
    }
  }
}
