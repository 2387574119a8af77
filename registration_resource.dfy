// src/registration_resource.cpp: the bridge's /registration resource, an
// open/closed switch that an OCF client reads with GET and flips with POST;
// each accepted POST is passed on to the HAN-FUN concentrator as an
// OPEN_REG or CLOSE_REG request.
module Registration {
  import opened Wrappers
  import opened Rep
  import Resources
  import HanClient

  const RegistrationType: string := "oic.r.registration"
  const RegistrationUri: string := "/registration"
  const ReadWriteInterface: string := "oic.if.rw"

  /**
   * The resource as Create registers it: its one type and, besides the
   * read-write interface, the baseline interface the stack binds to every
   * resource first.
   */
  const RegistrationInfo: Resources.ResourceInfo :=
    Resources.ResourceInfo([RegistrationType], [Resources.BaselineInterface, ReadWriteInterface])

  datatype RestMethod = Get | Post | Put | Delete | OtherMethod
  /** A request body: a representation, or a payload of any other type. */
  datatype Body = Representation(rep: Payload) | OtherBody
  datatype Request = Request(verb: RestMethod, query: Option<string>, body: Option<Body>)
  datatype EhResult = EhOk | EhError | EhBadRequest | EhMethodNotAllowed

  /** What IsValidRequest accepts: the query's interface is one of the resource's, and so is its type if it names one. */
  predicate ValidQuery(info: Resources.ResourceInfo, query: Option<string>) {
    var m := Resources.QueryMap(info, query);
    && "if" in m && m["if"] in info.interfaces[..Resources.InterfaceCount(info)]
    && ("rt" in m ==> m["rt"] in info.types[..Resources.TypeCount(info)])
  }

  /** HFSetRegistration: the request the HAN-FUN client is sent for the state `open`. */
  function RegistrationRequest(open: bool): (m: HanClient.Message) {
    if open then HanClient.OpenRegistrationRequest() else HanClient.CloseRegistrationRequest()
  }

  /**
   * GetRegistration: the payload CreatePayload builds for the query, with
   * "open" set to the state and "rt" and "if" set, in place, to the
   * registration type and the read-write interface.
   */
  function RegistrationPayload(info: Resources.ResourceInfo, query: Option<string>, open: bool): (p: Payload)
    ensures GetBool(p, "open") == Some(open)
    ensures GetStringArray(p, "rt") == Some([RegistrationType])
    ensures GetStringArray(p, "if") == Some([ReadWriteInterface])
    ensures forall n :: Find(p, n).Some? ==> n == "open" || n == "rt" || n == "if"
  {
    var base := Resources.CreatePayload(info, query);
    OnlyTypesAndInterfaces(info, query);
    var withOpen := Set(base, "open", Bool(open));
    var withType := Set(withOpen, "rt", StrArray([RegistrationType]));
    var p := Set(withType, "if", StrArray([ReadWriteInterface]));
    assert Find(p, "open") == Find(withType, "open") == Find(withOpen, "open");
    assert Find(p, "rt") == Find(withType, "rt");
    p
  }

  /** CreatePayload sets nothing but "rt" and "if". */
  lemma OnlyTypesAndInterfaces(info: Resources.ResourceInfo, query: Option<string>)
    ensures forall n :: Find(Resources.CreatePayload(info, query), n).Some? ==> n == "rt" || n == "if"
  {
    var p := Resources.CreatePayload(info, query);
    if p != Empty {
      var withTypes := Set(Empty, "rt", StrArray(info.types[..Resources.TypeCount(info)]));
      assert p == Set(withTypes, "if", StrArray(info.interfaces[..Resources.InterfaceCount(info)]));
    }
  }

  /** What one request does: the handler's result, the response payload, whether observers are told, the new state and the HAN-FUN requests sent. */
  datatype Outcome = Outcome(result: EhResult, response: Option<Payload>, notify: bool, open: bool, sent: seq<HanClient.Message>)

  /** EntityHandlerCB on a resource in state `open`. */
  function Handle(info: Resources.ResourceInfo, open: bool, req: Request): Outcome {
    if !ValidQuery(info, req.query) then Outcome(EhBadRequest, None, false, open, [])
    else
      match req.verb
      case Get => Outcome(EhOk, Some(RegistrationPayload(info, req.query, open)), false, open, [])
      case Post =>
        if req.body.None? || !req.body.value.Representation? then Outcome(EhError, None, false, open, [])
        else
          (match GetBool(req.body.value.rep, "open")
           case None => Outcome(EhError, None, false, open, [])
           case Some(b) => Outcome(EhOk, Some(RegistrationPayload(info, req.query, b)), open != b, b, [RegistrationRequest(b)]))
      case _ => Outcome(EhMethodNotAllowed, None, false, open, [])
  }

  /** A request IsValidRequest refuses is a bad request, and nothing changes. */
  lemma InvalidRequestTouchesNothing(info: Resources.ResourceInfo, open: bool, req: Request)
    requires !ValidQuery(info, req.query)
    ensures var o := Handle(info, open, req);
            o.result == EhBadRequest && o.response.None? && !o.notify && o.open == open && o.sent == []
  {
  }

  /** GET answers OK with the current state, the registration type and the read-write interface, and changes nothing. */
  lemma GetShowsState(info: Resources.ResourceInfo, open: bool, req: Request)
    requires ValidQuery(info, req.query) && req.verb == Get
    ensures var o := Handle(info, open, req);
            && o.result == EhOk && o.response.Some?
            && GetBool(o.response.value, "open") == Some(open)
            && GetStringArray(o.response.value, "rt") == Some([RegistrationType])
            && GetStringArray(o.response.value, "if") == Some([ReadWriteInterface])
            && !o.notify && o.open == open && o.sent == []
  {
  }

  /** A POST without a representation holding a boolean "open" is an error and changes nothing. */
  lemma PostWithoutOpenFails(info: Resources.ResourceInfo, open: bool, req: Request)
    requires ValidQuery(info, req.query) && req.verb == Post
    requires req.body.None? || !req.body.value.Representation? || GetBool(req.body.value.rep, "open").None?
    ensures var o := Handle(info, open, req);
            o.result == EhError && o.response.None? && !o.notify && o.open == open && o.sent == []
  {
  }

  /**
   * An accepted POST takes the new state, answers OK with it, tells the
   * HAN-FUN client even when the state is unchanged, and notifies the
   * observers exactly when the state changed.
   */
  lemma PostSetsState(info: Resources.ResourceInfo, open: bool, req: Request, b: bool)
    requires ValidQuery(info, req.query) && req.verb == Post
    requires req.body.Some? && req.body.value.Representation? && GetBool(req.body.value.rep, "open") == Some(b)
    ensures var o := Handle(info, open, req);
            && o.result == EhOk && o.open == b && o.notify == (open != b)
            && o.response.Some? && GetBool(o.response.value, "open") == Some(b)
            && o.sent == [if b then HanClient.OpenRegistrationRequest() else HanClient.CloseRegistrationRequest()]
  {
  }

  /** PUT, DELETE and the rest are not allowed, and change nothing. */
  lemma OtherMethodsNotAllowed(info: Resources.ResourceInfo, open: bool, req: Request)
    requires ValidQuery(info, req.query) && req.verb != Get && req.verb != Post
    ensures var o := Handle(info, open, req);
            o.result == EhMethodNotAllowed && o.response.None? && !o.notify && o.open == open && o.sent == []
  {
  }

  /** On every request, observers are notified exactly when the state changes, and only an OK changes it. */
  lemma NotifyExactlyOnChange(info: Resources.ResourceInfo, open: bool, req: Request)
    ensures var o := Handle(info, open, req);
            && (o.notify <==> o.open != open)
            && (o.open != open ==> o.result == EhOk)
            && (o.result != EhOk ==> o.sent == [] && o.response.None?)
  {
    if ValidQuery(info, req.query) && req.verb == Post && req.body.Some? && req.body.value.Representation? {
      var b := GetBool(req.body.value.rep, "open");
      if b.Some? {
        PostSetsState(info, open, req, b.value);
      }
    }
  }

  /** Repeating a request changes nothing more and notifies nobody. */
  lemma RepeatIsQuiet(info: Resources.ResourceInfo, open: bool, req: Request)
    ensures var o := Handle(info, open, req);
            var o2 := Handle(info, o.open, req);
            !o2.notify && o2.open == o.open && o2.result == o.result
  {
  }

  /** The registration resource always has an interface to check a query against. */
  lemma RegistrationQueriesDecided(query: Option<string>)
    ensures "if" in Resources.QueryMap(RegistrationInfo, query)
  {
    Resources.TypedResourceHasInterface(RegistrationInfo, query);
  }

  class RegistrationResource {
    var open: bool
    /** The requests passed on to the HAN-FUN client, oldest first. */
    var sent: seq<HanClient.Message>

    constructor()
      ensures !open && sent == []
    {
      open := false;
      sent := [];
    }

    method HFSetRegistration()
      modifies this
      ensures open == old(open) && sent == old(sent) + [RegistrationRequest(open)]
    {
      if open {
        sent := sent + [HanClient.OpenRegistrationRequest()];
      } else {
        sent := sent + [HanClient.CloseRegistrationRequest()];
      }
    }

    method GetRegistration(query: Option<string>) returns (p: Payload)
      ensures p == RegistrationPayload(RegistrationInfo, query, open)
    {
      var base := Resources.CreatePayload(RegistrationInfo, query);
      p := Set(base, "open", Bool(open));
      p := Set(p, "rt", StrArray([RegistrationType]));
      p := Set(p, "if", StrArray([ReadWriteInterface]));
    }

    /** PostRegistration on a representation: false, and nothing changes, when it has no boolean "open". */
    method PostRegistration(rep: Payload) returns (ok: bool, hasChanged: bool)
      modifies this
      ensures ok <==> GetBool(rep, "open").Some?
      ensures !ok ==> !hasChanged && open == old(open) && sent == old(sent)
      ensures ok ==> var b := GetBool(rep, "open").value;
                     hasChanged == (old(open) != b) && open == b && sent == old(sent) + [RegistrationRequest(b)]
    {
      var value := GetBool(rep, "open");
      if value.None? {
        return false, false;
      }
      hasChanged := open != value.value;
      open := value.value;
      HFSetRegistration();
      ok := true;
    }

    /**
     * EntityHandlerCB: the result, the payload passed to OCDoResponse (if
     * any) and whether OCNotifyAllObservers is called.
     */
    method EntityHandler(req: Request) returns (result: EhResult, response: Option<Payload>, notify: bool)
      modifies this
      ensures var o := Handle(RegistrationInfo, old(open), req);
              result == o.result && response == o.response && notify == o.notify
              && open == o.open && sent == old(sent) + o.sent
    {
      RegistrationQueriesDecided(req.query);
      var valid := Resources.IsValidRequest(RegistrationInfo, req.query);
      if valid != Some(true) {
        return EhBadRequest, None, false;
      }
      notify := false;
      response := None;
      match req.verb {
        case Get =>
          var payload := GetRegistration(req.query);
          result, response := EhOk, Some(payload);
        case Post =>
          if req.body.None? || !req.body.value.Representation? {
            result := EhError;
          } else {
            var ok, hasChanged := PostRegistration(req.body.value.rep);
            if !ok {
              result := EhError;
            } else {
              var payload := GetRegistration(req.query);
              result, response, notify := EhOk, Some(payload), hasChanged;
            }
          }
        case _ =>
          result := EhMethodNotAllowed;
      }
    }
  }
}
