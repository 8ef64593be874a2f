/** The client's transport layer: how `APIService.request` builds a request
    and reads a response, the username check, and `WebSocketService` with its
    listener table, reconnect counter and guarded sends. */
module ApiClient {
  import opened Common
  import ChatModels
  import Views

  const BaseApiUrl := "http://localhost:8000/api"

  datatype RequestPlan = RequestPlan(url: string, jsonContentType: bool)

  /** An endpoint that already names a full URL is used as it is; any other is
      appended to the API base. The JSON content type is set unless the body is
      form data, which the browser labels itself. */
  function PlanRequest(endpoint: string, isFormData: bool): (p: RequestPlan)
    ensures StartsWith(endpoint, "http") ==> p.url == endpoint
    ensures !StartsWith(endpoint, "http") ==> p.url == BaseApiUrl + endpoint
    ensures p.jsonContentType <==> !isFormData
  {
    RequestPlan(if StartsWith(endpoint, "http") then endpoint else BaseApiUrl + endpoint, !isFormData)
  }

  /** Every planned URL is absolute. */
  lemma PlannedUrlIsAbsolute(endpoint: string, isFormData: bool)
    ensures StartsWith(PlanRequest(endpoint, isFormData).url, "http")
  {
    var u := PlanRequest(endpoint, isFormData).url;
    if !StartsWith(endpoint, "http") {
      assert u[..4] == BaseApiUrl[..4] == "http";
    }
  }

  datatype ResponseOutcome = Thrown | StatusOnly(status: nat) | WithBody(status: nat)

  /** A 500 becomes an exception; an empty body yields the status alone. */
  function ReadResponse(status: nat, contentLength: Option<string>): (o: ResponseOutcome)
    ensures o.Thrown? <==> status == 500
    ensures !o.Thrown? ==> o.status == status
    ensures o.StatusOnly? <==> status != 500 && contentLength == Some("0")
  {
    if status == 500 then Thrown
    else if contentLength == Some("0") then StatusOnly(status)
    else WithBody(status)
  }

  /** `checkIfUserExists` as written: it reports a taken name on 302. */
  function UserExistsAsWritten(status: nat): bool {
    status == 302
  }

  /** The check the server's answers call for: 200 means taken. */
  function UserExists(status: nat): bool {
    status == 200
  }

  /** Against the username endpoint the written check never reports a taken
      name, whatever the store holds. */
  lemma UserExistsAsWrittenNeverTrue(st: ChatModels.Store, username: string)
    ensures !UserExistsAsWritten(Views.CheckUsername(st, username))
  {
  }

  /** The corrected check reports exactly the names some user has. */
  lemma UserExistsMatchesStore(st: ChatModels.Store, username: string)
    ensures UserExists(Views.CheckUsername(st, username)) <==> ChatModels.UsernameTaken(st, username)
  {
  }

  datatype EventType = ConnectEvent | MessageEvent | DisconnectEvent | ErrorEvent

  /** A registered callback, by identity; `None` is a key the table holds
      with the value `undefined`. */
  type CallbackId = nat
  type Listeners = map<EventType, Option<CallbackId>>

  datatype EmitOutcome = NoListener | Invoked(callback: CallbackId) | CalledUndefined

  /** `on`: a callback is stored only for an event with no entry, so the
      first registration wins. */
  function Registered(t: Listeners, e: EventType, cb: CallbackId): (r: Listeners)
    ensures e !in t ==> r == t[e := Some(cb)]
    ensures e in t ==> r == t
  {
    if e in t then t else t[e := Some(cb)]
  }

  /** `off` as written: an existing entry is overwritten with `undefined`,
      so the key stays in the table. */
  function UnregisteredAsWritten(t: Listeners, e: EventType): (r: Listeners)
    ensures r.Keys == t.Keys
    ensures e in t ==> r[e].None?
  {
    if e in t then t[e := None] else t
  }

  /** `off` as evidently meant: the entry is removed. */
  function Unregistered(t: Listeners, e: EventType): (r: Listeners)
    ensures r.Keys == t.Keys - {e}
    ensures forall k :: k in r ==> r[k] == t[k]
  {
    t - {e}
  }

  /** `emit`: a present key is called, whatever it holds. */
  function Dispatch(t: Listeners, e: EventType): (o: EmitOutcome)
    ensures e !in t <==> o.NoListener?
    ensures (e in t && t[e].Some?) <==> o.Invoked?
    ensures o.Invoked? ==> e in t && t[e] == Some(o.callback)
    ensures o.CalledUndefined? <==> e in t && t[e].None?
  {
    if e !in t then NoListener
    else match t[e]
      case None => CalledUndefined
      case Some(cb) => Invoked(cb)
  }

  lemma FirstRegistrationWins(t: Listeners, e: EventType, a: CallbackId, b: CallbackId)
    requires e !in t
    ensures Dispatch(Registered(Registered(t, e, a), e, b), e) == Invoked(a)
  {
  }

  /** With the written `off`, a callback registered afterwards is ignored and
      the next event calls `undefined`. */
  lemma OffThenOnAsWrittenFails(t: Listeners, e: EventType, a: CallbackId, b: CallbackId)
    requires e !in t
    ensures Dispatch(Registered(UnregisteredAsWritten(Registered(t, e, a), e), e, b), e) == CalledUndefined
  {
  }

  /** With the corrected `off`, a later registration takes effect, and
      removing a listener silences its event. */
  lemma OffThenOnRegisters(t: Listeners, e: EventType, a: CallbackId, b: CallbackId)
    ensures Dispatch(Unregistered(t, e), e) == NoListener
    ensures Dispatch(Registered(Unregistered(Registered(t, e, a), e), e, b), e) == Invoked(b)
  {
  }

  /** A table built only by the corrected `on` and `off` never calls
      `undefined`. */
  predicate NoUndefined(t: Listeners) {
    forall k :: k in t ==> t[k].Some?
  }

  lemma CorrectedTableNeverCallsUndefined(t: Listeners, e: EventType, cb: CallbackId)
    requires NoUndefined(t)
    ensures NoUndefined(Registered(t, e, cb)) && NoUndefined(Unregistered(t, e))
    ensures Dispatch(t, e) != CalledUndefined
  {
  }

  datatype ReadyState = Connecting | Open | Closing | Closed

  datatype OutFrame = OutFrame(kind: string, payload: nat)

  const MaxReconnectAttempts: nat := 5
  const ReconnectDelay: nat := 1000

  /** `WebSocketService`. Callbacks are recorded by identity in `calls`;
      `socket` is the ready state of the current socket, if any; `outbox`
      is what was sent over it and `retries` the delays of the scheduled
      reconnects. */
  class WebSocketService {
    var socket: Option<ReadyState>
    var reconnectAttempts: nat
    var shouldReconnect: bool
    var listeners: Listeners
    var calls: seq<(CallbackId, EventType)>
    var outbox: seq<OutFrame>
    var retries: seq<nat>

    /** The reconnect counter never exceeds its bound, and every scheduled
        delay is 1000 times an attempt number within it. */
    predicate Valid()
      reads this
    {
      reconnectAttempts <= MaxReconnectAttempts
      && forall i :: 0 <= i < |retries| ==> ReconnectDelay <= retries[i] <= ReconnectDelay * MaxReconnectAttempts
    }

    constructor()
      ensures Valid()
      ensures socket.None? && reconnectAttempts == 0 && shouldReconnect && listeners == map[]
      ensures calls == [] && outbox == [] && retries == []
    {
      socket := None;
      reconnectAttempts := 0;
      shouldReconnect := true;
      listeners := map[];
      calls := [];
      outbox := [];
      retries := [];
    }

    method On(e: EventType, cb: CallbackId)
      modifies this
      ensures listeners == Registered(old(listeners), e, cb)
      ensures socket == old(socket) && reconnectAttempts == old(reconnectAttempts) && shouldReconnect == old(shouldReconnect)
      ensures calls == old(calls) && outbox == old(outbox) && retries == old(retries)
    {
      listeners := Registered(listeners, e, cb);
    }

    method Off(e: EventType)
      modifies this
      ensures listeners == Unregistered(old(listeners), e)
      ensures socket == old(socket) && reconnectAttempts == old(reconnectAttempts) && shouldReconnect == old(shouldReconnect)
      ensures calls == old(calls) && outbox == old(outbox) && retries == old(retries)
    {
      listeners := Unregistered(listeners, e);
    }

    /** `emit`: the outcome of the dispatch, with an invoked callback logged. */
    method Emit(e: EventType) returns (o: EmitOutcome)
      modifies this
      ensures o == Dispatch(old(listeners), e)
      ensures o.Invoked? ==> calls == old(calls) + [(o.callback, e)]
      ensures !o.Invoked? ==> calls == old(calls)
      ensures listeners == old(listeners) && socket == old(socket) && reconnectAttempts == old(reconnectAttempts)
      ensures shouldReconnect == old(shouldReconnect) && outbox == old(outbox) && retries == old(retries)
    {
      o := Dispatch(listeners, e);
      if o.Invoked? {
        calls := calls + [(o.callback, e)];
      }
    }

    /** `connect`: a new socket replaces the old one, which is closed, and
        reconnecting is armed again. */
    method Connect()
      requires Valid()
      modifies this
      ensures Valid()
      ensures socket == Some(Connecting) && shouldReconnect
      ensures reconnectAttempts == old(reconnectAttempts) && listeners == old(listeners)
      ensures calls == old(calls) && outbox == old(outbox) && retries == old(retries)
    {
      if socket.Some? {
        shouldReconnect := false;
      }
      shouldReconnect := true;
      socket := Some(Connecting);
    }

    /** `handleReconnect`: a retry is scheduled only while attempts remain;
        its delay grows with the attempt number. */
    method HandleReconnect()
      requires Valid()
      modifies this
      ensures Valid()
      ensures old(reconnectAttempts) < MaxReconnectAttempts ==>
        reconnectAttempts == old(reconnectAttempts) + 1 && retries == old(retries) + [ReconnectDelay * reconnectAttempts]
      ensures old(reconnectAttempts) >= MaxReconnectAttempts ==>
        reconnectAttempts == old(reconnectAttempts) && retries == old(retries)
      ensures socket == old(socket) && shouldReconnect == old(shouldReconnect) && listeners == old(listeners)
      ensures calls == old(calls) && outbox == old(outbox)
    {
      if reconnectAttempts < MaxReconnectAttempts {
        reconnectAttempts := reconnectAttempts + 1;
        retries := retries + [ReconnectDelay * reconnectAttempts];
      }
    }

    /** The socket's `onopen`: the counter starts over and `connect` is
        announced. */
    method HandleOpen() returns (o: EmitOutcome)
      requires Valid()
      modifies this
      ensures Valid()
      ensures socket == Some(Open) && reconnectAttempts == 0
      ensures o == Dispatch(old(listeners), ConnectEvent)
      ensures listeners == old(listeners) && shouldReconnect == old(shouldReconnect)
      ensures outbox == old(outbox) && retries == old(retries)
    {
      socket := Some(Open);
      reconnectAttempts := 0;
      o := Emit(ConnectEvent);
    }

    /** The socket's `onclose`: `disconnect` is announced and, while
        reconnecting is armed, a retry is attempted. */
    method HandleClose() returns (o: EmitOutcome)
      requires Valid()
      modifies this
      ensures Valid()
      ensures o == Dispatch(old(listeners), DisconnectEvent)
      ensures old(shouldReconnect) && old(reconnectAttempts) < MaxReconnectAttempts ==>
        reconnectAttempts == old(reconnectAttempts) + 1 && |retries| == |old(retries)| + 1
      ensures !old(shouldReconnect) || old(reconnectAttempts) >= MaxReconnectAttempts ==>
        reconnectAttempts == old(reconnectAttempts) && retries == old(retries)
      ensures listeners == old(listeners) && shouldReconnect == old(shouldReconnect) && outbox == old(outbox)
    {
      socket := Some(Closed);
      o := Emit(DisconnectEvent);
      if shouldReconnect {
        HandleReconnect();
      }
    }

    /** The send helpers: a frame goes out only over an open socket. */
    method Send(kind: string, payload: nat)
      modifies this
      ensures socket == Some(Open) ==> outbox == old(outbox) + [OutFrame(kind, payload)]
      ensures socket != Some(Open) ==> outbox == old(outbox)
      ensures socket == old(socket) && reconnectAttempts == old(reconnectAttempts) && shouldReconnect == old(shouldReconnect)
      ensures listeners == old(listeners) && calls == old(calls) && retries == old(retries)
    {
      if socket == Some(Open) {
        outbox := outbox + [OutFrame(kind, payload)];
      }
    }

    /** `disconnect`: reconnecting is disarmed, the socket dropped and every
        listener forgotten. */
    method Disconnect()
      requires Valid()
      modifies this
      ensures Valid()
      ensures !shouldReconnect && socket.None? && listeners == map[]
      ensures reconnectAttempts == old(reconnectAttempts)
      ensures calls == old(calls) && outbox == old(outbox) && retries == old(retries)
    {
      shouldReconnect := false;
      if socket.Some? {
        socket := None;
      }
      listeners := map[];
    }
  }

  /** However many times a socket closes, at most five retries are ever
      scheduled after a successful open. */
  method CloseRepeatedly(ws: WebSocketService, n: nat)
    requires ws.Valid() && ws.reconnectAttempts == 0 && ws.retries == []
    modifies ws
    ensures ws.Valid() && |ws.retries| <= MaxReconnectAttempts
    ensures ws.reconnectAttempts == |ws.retries|
  {
    var i := 0;
    while i < n
      invariant ws.Valid() && ws.reconnectAttempts == |ws.retries|
      decreases n - i
    {
      var _ := ws.HandleClose();
      i := i + 1;
    }
  }
}
