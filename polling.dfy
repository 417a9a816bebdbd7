/**
 * The status poller: one repeating 3000 ms interval per reader, each tick asking the reader
 * for its status and relaying the answer to the socket and the bus.
 *
 * `StatusPoller` holds the `pollingIntervals` table, the intervals the runtime still runs,
 * and the ordered trace of timer calls and status queries. One status query is modelled by
 * `ConsultarStatus`, a function of the reader's answer.
 */
module Polling {
  import opened Wrappers
  import opened Json
  import opened Lector
  import opened Topics
  import opened Mqtt

  const DefaultPollingId: string := "reader1"
  const PollingPeriod: int := 3000

  datatype PollEffect =
    | Query(lectorId: string)
    | ClearInterval(handle: nat)
    | SetInterval(lectorId: string, handle: nat, period: int)

  /** No two readers share an interval handle. */
  ghost predicate Injective(m: map<string, nat>) {
    forall r, r' :: r in m && r' in m && r != r' ==> m[r] != m[r']
  }

  lemma ValuesRemove(m: map<string, nat>, r: string)
    requires Injective(m) && r in m
    ensures (m - {r}).Values == m.Values - {m[r]}
    ensures Injective(m - {r})
  {
    forall h | h in m.Values - {m[r]}
      ensures h in (m - {r}).Values
    {
      var r' :| r' in m && m[r'] == h;
      assert r' in m - {r};
    }
  }

  lemma ValuesUpdate(m: map<string, nat>, r: string, h: nat)
    requires Injective(m) && h !in m.Values
    ensures m[r := h].Values == (if r in m then m.Values - {m[r]} else m.Values) + {h}
    ensures Injective(m[r := h])
  {
    var m' := m[r := h];
    forall x | x in (if r in m then m.Values - {m[r]} else m.Values)
      ensures x in m'.Values
    {
      var r' :| r' in m && m[r'] == x;
      assert r' != r;
      assert m'[r'] == x;
    }
    assert m'[r] == h;
  }

  class StatusPoller {
    /** `pollingIntervals`: the interval handle stored for each reader. */
    var intervals: map<string, nat>
    /** The intervals the runtime is running. */
    var live: set<nat>
    var nextHandle: nat
    var trace: seq<PollEffect>

    /** Every running interval is stored for exactly one reader, and every stored one runs. */
    ghost predicate Valid()
      reads this
    {
      && live == intervals.Values
      && Injective(intervals)
      && (forall h :: h in live ==> h < nextHandle)
    }

    constructor ()
      ensures intervals == map[] && live == {} && nextHandle == 0 && trace == []
      ensures Valid()
    {
      intervals := map[];
      live := {};
      nextHandle := 0;
      trace := [];
    }

    /**
     * `iniciarPolling(lectorId = 'reader1')`: stop the reader's interval if it has one, query
     * at once, then start and store a new interval.
     */
    method IniciarPolling(lectorId: Option<string>) returns (ok: bool)
      requires Valid()
      modifies this
      ensures Valid()
      ensures ok
      ensures var id := lectorId.GetOr(DefaultPollingId);
        && intervals == old(intervals)[id := old(nextHandle)]
        && live == (if id in old(intervals) then old(live) - {old(intervals)[id]} else old(live)) + {old(nextHandle)}
        && nextHandle == old(nextHandle) + 1
        && trace == old(trace) + (if id in old(intervals) then [ClearInterval(old(intervals)[id])] else [])
                    + [Query(id), SetInterval(id, old(nextHandle), PollingPeriod)]
    {
      var id := lectorId.GetOr(DefaultPollingId);
      if id in intervals {
        trace := trace + [ClearInterval(intervals[id])];
        live := live - {intervals[id]};
      }
      trace := trace + [Query(id)];
      var h := nextHandle;
      nextHandle := nextHandle + 1;
      trace := trace + [SetInterval(id, h, PollingPeriod)];
      live := live + {h};
      ValuesUpdate(intervals, id, h);
      intervals := intervals[id := h];
      ok := true;
    }

    /** `detenerPolling(lectorId = 'reader1')`: `true` exactly when the reader had an interval, which is stopped and forgotten. */
    method DetenerPolling(lectorId: Option<string>) returns (ok: bool)
      requires Valid()
      modifies this
      ensures Valid()
      ensures var id := lectorId.GetOr(DefaultPollingId);
        && (ok <==> id in old(intervals))
        && intervals == old(intervals) - {id}
        && nextHandle == old(nextHandle)
        && (ok ==> live == old(live) - {old(intervals)[id]} && trace == old(trace) + [ClearInterval(old(intervals)[id])])
        && (!ok ==> live == old(live) && trace == old(trace))
    {
      var id := lectorId.GetOr(DefaultPollingId);
      if id in intervals {
        trace := trace + [ClearInterval(intervals[id])];
        live := live - {intervals[id]};
        ValuesRemove(intervals, id);
        intervals := intervals - {id};
        return true;
      }
      return false;
    }

    /** A reader's interval comes round: one more status query. */
    method Fire(lectorId: string)
      requires Valid() && lectorId in intervals
      modifies this
      ensures Valid()
      ensures intervals == old(intervals) && live == old(live) && nextHandle == old(nextHandle)
      ensures trace == old(trace) + [Query(lectorId)]
    {
      trace := trace + [Query(lectorId)];
    }

    /** `detenerTodosPollings`: stop every stored interval, each once, then empty the table. */
    method DetenerTodos()
      requires Valid()
      modifies this
      ensures Valid()
      ensures intervals == map[] && live == {} && nextHandle == old(nextHandle)
      ensures |old(trace)| <= |trace| && trace[..|old(trace)|] == old(trace)
      ensures var stops := trace[|old(trace)|..];
        OnlyClears(stops) && Distinct(stops) && Cleared(stops) == old(intervals).Values
    {
      var rest := intervals;
      ghost var stops: seq<PollEffect> := [];
      while rest != map[]
        invariant Injective(rest) && rest.Values <= old(intervals).Values
        invariant intervals == old(intervals) && nextHandle == old(nextHandle)
        invariant live == rest.Values
        invariant trace == old(trace) + stops
        invariant OnlyClears(stops) && Distinct(stops)
        invariant Cleared(stops) == old(intervals).Values - rest.Values
        decreases rest.Keys
      {
        var r :| r in rest;
        var h := rest[r];
        ClearedAppend(stops, h);
        trace := trace + [ClearInterval(h)];
        stops := stops + [ClearInterval(h)];
        live := live - {h};
        ValuesRemove(rest, r);
        rest := rest - {r};
      }
      assert trace[|old(trace)|..] == stops;
      intervals := map[];
    }
  }

  /** Every effect is a `clearInterval`. */
  ghost predicate OnlyClears(es: seq<PollEffect>) {
    forall i :: 0 <= i < |es| ==> es[i].ClearInterval?
  }

  ghost predicate Distinct(es: seq<PollEffect>) {
    forall i, j :: 0 <= i < j < |es| ==> es[i] != es[j]
  }

  /** The handles the effects stop. */
  ghost function Cleared(es: seq<PollEffect>): set<nat> {
    set i | 0 <= i < |es| && es[i].ClearInterval? :: es[i].handle
  }

  /** One more stop: its handle joins the stopped ones, and if it is new the stops stay distinct. */
  lemma ClearedAppend(es: seq<PollEffect>, h: nat)
    requires OnlyClears(es) && Distinct(es) && h !in Cleared(es)
    ensures Cleared(es + [ClearInterval(h)]) == Cleared(es) + {h}
    ensures OnlyClears(es + [ClearInterval(h)]) && Distinct(es + [ClearInterval(h)])
  {
    var es' := es + [ClearInterval(h)];
    assert es'[|es|].handle == h;
    forall i | 0 <= i < |es|
      ensures es'[i] != ClearInterval(h)
    {
      assert es[i].handle in Cleared(es);
    }
    forall x | x in Cleared(es)
      ensures x in Cleared(es')
    {
      var i :| 0 <= i < |es| && es[i].ClearInterval? && es[i].handle == x;
      assert es'[i] == es[i];
    }
  }

  /** What one status query leaves behind: the messages it emitted and how its promise settles. */
  datatype Outcome = Resolved(status: Value) | ResolvedNull | Rejected(error: Exception)

  datatype Poll = Poll(events: seq<Event>, outcome: Outcome)

  /** What evaluating `mqttService.publishError(...)` throws: the module does not export it. */
  const PublishErrorMissing: Exception := Exception("TypeError", "mqttService.publishError is not a function")

  function StatusErrorEvent(lectorId: string, e: ServiceError): Event {
    Socket("lector/" + lectorId + "/statusError",
      Obj([Member("error", Str("Error al obtener status")), Member("details", Str(e.message))]))
  }

  /**
   * `consultarStatus`, as written: a status goes to the socket and the bus and resolves the
   * promise; a failure goes to the socket, and the call to the unexported `publishError`
   * then rejects the promise.
   */
  function ConsultarStatus(fallback: ReaderConfig, lectorId: string, client: bool,
                           send: Request -> Result<HttpResponse, AxiosError>): (p: Poll)
    ensures |p.events| >= 1 && p.events[0].Socket?
    ensures p.outcome.Rejected? <==> send(RequestOf(fallback, Some(lectorId), GetStatus)).Failure?
    ensures !p.outcome.ResolvedNull?
    ensures p.outcome.Rejected? ==> |p.events| == 1
  {
    match Perform(fallback, Some(lectorId), GetStatus, send)
    case Success(status) =>
      Poll([Socket("lector/" + lectorId + "/status", status)] + PublishLectorStatus(client, lectorId, status), Resolved(status))
    case Failure(e) =>
      Poll([StatusErrorEvent(lectorId, e)], Rejected(PublishErrorMissing))
  }

  /** `consultarStatus` with the error published through the module's exported error publisher, resolving to `null`. */
  function ConsultarStatusCorregido(fallback: ReaderConfig, lectorId: string, client: bool,
                                    send: Request -> Result<HttpResponse, AxiosError>): (p: Poll)
    ensures |p.events| >= 1 && p.events[0].Socket?
    ensures !p.outcome.Rejected?
    ensures p.outcome.ResolvedNull? <==> send(RequestOf(fallback, Some(lectorId), GetStatus)).Failure?
    ensures |p.events| == (if client then 2 else 1)
  {
    match Perform(fallback, Some(lectorId), GetStatus, send)
    case Success(status) =>
      Poll([Socket("lector/" + lectorId + "/status", status)] + PublishLectorStatus(client, lectorId, status), Resolved(status))
    case Failure(e) =>
      Poll([StatusErrorEvent(lectorId, e)] + PublishError(client, lectorId, "status_polling_error", e.message), ResolvedNull)
  }

  /** A reader that answers: its status is emitted to the socket, published to the bus when connected, and returned. */
  lemma StatusRelayed(fallback: ReaderConfig, lectorId: string, client: bool,
                      send: Request -> Result<HttpResponse, AxiosError>)
    requires '/' !in lectorId && '$' !in lectorId
    requires send(RequestOf(fallback, Some(lectorId), GetStatus)).Success?
    ensures var data := send(RequestOf(fallback, Some(lectorId), GetStatus)).value.data;
      var p := ConsultarStatus(fallback, lectorId, client, send);
      && p.outcome == Resolved(data)
      && p.events[0] == Socket("lector/" + lectorId + "/status", data)
      && (client ==> p.events == [p.events[0], Bus("readers/" + lectorId + "/status",
                                                   Obj([Member("type", Str("reader_status")), Member("status", data)]))])
      && (!client ==> |p.events| == 1)
  {
    PublishedToReader(client, Status, lectorId, [Member("type", Str("reader_status")), Member("status", Perform(fallback, Some(lectorId), GetStatus, send).value)]);
  }

  /**
   * A reader that fails: the socket hears of it, but nothing reaches the bus and the query
   * rejects with a `TypeError` instead of resolving to `null`.
   */
  lemma FailureRejects(fallback: ReaderConfig, lectorId: string, client: bool,
                       send: Request -> Result<HttpResponse, AxiosError>)
    requires send(RequestOf(fallback, Some(lectorId), GetStatus)).Failure?
    ensures var p := ConsultarStatus(fallback, lectorId, client, send);
      && p.outcome == Rejected(PublishErrorMissing)
      && p.events == [Socket("lector/" + lectorId + "/statusError",
                             Obj([Member("error", Str("Error al obtener status")),
                                  Member("details", Str("Error al obtener estado del lector " + lectorId))]))]
      && forall i :: 0 <= i < |p.events| ==> p.events[i].Socket?
  {
  }

  /**
   * The corrected query resolves to `null` after the socket event, and with a client also
   * publishes `status_polling_error` on the reader's error topic.
   */
  lemma CorregidoPublishesError(fallback: ReaderConfig, lectorId: string, client: bool,
                                send: Request -> Result<HttpResponse, AxiosError>)
    requires '/' !in lectorId && '$' !in lectorId
    requires send(RequestOf(fallback, Some(lectorId), GetStatus)).Failure?
    ensures var p := ConsultarStatusCorregido(fallback, lectorId, client, send);
      && p.outcome == ResolvedNull
      && p.events[0] == ConsultarStatus(fallback, lectorId, client, send).events[0]
      && (client ==> p.events[1..] == [Bus("readers/" + lectorId + "/errors",
                                           Obj([Member("type", Str("status_polling_error")),
                                                Member("message", Str("Error al obtener estado del lector " + lectorId))]))])
      && (!client ==> |p.events| == 1)
  {
    var e := Perform(fallback, Some(lectorId), GetStatus, send).error;
    PublishedToReader(client, Errors, lectorId, [Member("type", Str("status_polling_error")), Member("message", Str(e.message))]);
  }

  /** The two versions differ only when the reader fails. */
  lemma CorregidoAgreesOnSuccess(fallback: ReaderConfig, lectorId: string, client: bool,
                                 send: Request -> Result<HttpResponse, AxiosError>)
    ensures send(RequestOf(fallback, Some(lectorId), GetStatus)).Success?
        <==> ConsultarStatusCorregido(fallback, lectorId, client, send) == ConsultarStatus(fallback, lectorId, client, send)
  {
  }

  /** Starting the same reader twice leaves one running interval for it: the second. */
  method RestartKeepsOne(lectorId: string) returns (p: StatusPoller)
    ensures p.intervals == map[lectorId := 1] && p.live == {1}
    ensures p.trace == [Query(lectorId), SetInterval(lectorId, 0, PollingPeriod), ClearInterval(0),
                        Query(lectorId), SetInterval(lectorId, 1, PollingPeriod)]
  {
    p := new StatusPoller();
    var a := p.IniciarPolling(Some(lectorId));
    var b := p.IniciarPolling(Some(lectorId));
  }

  /** Stopping one reader leaves another reader's interval running. */
  method StopIsPerReader() returns (p: StatusPoller, stopped: bool, again: bool)
    ensures stopped && !again
    ensures p.intervals == map["reader2" := 1] && p.live == {1}
  {
    p := new StatusPoller();
    var a := p.IniciarPolling(None);
    var b := p.IniciarPolling(Some("reader2"));
    stopped := p.DetenerPolling(None);
    again := p.DetenerPolling(Some("reader1"));
  }
}
