/**
 * The GPO actuator: the reader's general-purpose outputs 1 and 3 switched high, and switched
 * low again by a single process-wide auto-deactivation timer.
 *
 * `GpoService` holds the module's state: the `gpoTimeout` variable, the timers still armed,
 * an abstract clock, and the ordered trace of what the service does to the outside world
 * (timer calls, PUTs to the reader, bus messages). The reader's answer to each PUT is a
 * parameter: `None` for success, the HTTP library's error otherwise.
 */
module Gpo {
  import opened Wrappers
  import opened Json
  import opened Lector
  import opened Topics
  import opened Mqtt

  /** The reader the GPO events are published for. */
  const GpoLectorId: string := "reader1"

  /** `activarGpos`'s default duration, in milliseconds. */
  const DefaultDuracion: int := 3000

  /** The largest delay the timer API honours; anything outside `1..TimeoutMax` becomes 1 ms. */
  const TimeoutMax: int := 2147483647

  datatype GpoConfig = GpoConfig(gpo: int, state: string)

  const High: seq<GpoConfig> := [GpoConfig(1, "high"), GpoConfig(3, "high")]
  const Low: seq<GpoConfig> := [GpoConfig(1, "low"), GpoConfig(3, "low")]

  function ConfigJson(c: GpoConfig): Value {
    Obj([Member("gpo", Num(c.gpo as real)), Member("state", Str(c.state))])
  }

  /** `{ gpoConfigurations }` */
  function GposBody(cs: seq<GpoConfig>): Value {
    Obj([Member("gpoConfigurations", Arr(seq(|cs|, i requires 0 <= i < |cs| => ConfigJson(cs[i]))))])
  }

  /** One step of the service's observable behaviour. */
  datatype Effect =
    | ClearTimer(timer: nat)
    | Put(url: string, body: Value)
    | Send(event: Event)
    | SetTimer(timer: nat, delay: int)

  datatype Timer = Timer(id: nat, due: int)

  /** The delay the timer API actually applies. */
  function EffectiveDelay(d: int): (r: int)
    ensures 1 <= r <= TimeoutMax
    ensures 1 <= d <= TimeoutMax ==> r == d
    ensures !(1 <= d <= TimeoutMax) ==> r == 1
  {
    if 1 <= d <= TimeoutMax then d else 1
  }

  /** The bus messages announcing one configured output. */
  function Announce(client: bool, lectorId: string, c: GpoConfig): seq<Effect> {
    var evs := PublishGpoEvent(client, lectorId, Num(c.gpo as real), Str(c.state));
    seq(|evs|, i requires 0 <= i < |evs| => Send(evs[i]))
  }

  /** The announcements for a list of outputs, in list order. */
  function Announcements(client: bool, lectorId: string, cs: seq<GpoConfig>): (es: seq<Effect>)
    ensures |es| == if client then |cs| else 0
    decreases |cs|
  {
    if cs == [] then [] else Announcements(client, lectorId, cs[..|cs| - 1]) + Announce(client, lectorId, cs[|cs| - 1])
  }

  lemma AnnouncementsSnoc(client: bool, lectorId: string, cs: seq<GpoConfig>, i: nat)
    requires i < |cs|
    ensures Announcements(client, lectorId, cs[..i + 1]) == Announcements(client, lectorId, cs[..i]) + Announce(client, lectorId, cs[i])
  {
    assert cs[..i + 1][..i] == cs[..i];
  }

  /** Where reader1's GPO events go. */
  const GpoTopic: string := "readers/" + GpoLectorId + "/gpos/events"

  /** The `gpo_state_change` event for one output. */
  function GpoEvent(c: GpoConfig): Event {
    Bus(GpoTopic, Obj([Member("type", Str("gpo_state_change")), Member("gpo", Num(c.gpo as real)), Member("state", Str(c.state))]))
  }

  /** With a client, one output is announced by exactly its event on reader1's GPO topic. */
  lemma AnnounceToReader1(lectorId: string, c: GpoConfig)
    requires lectorId == GpoLectorId
    ensures Announce(true, lectorId, c) == [Send(GpoEvent(c))]
  {
    assert '$' !in lectorId by {
      assert lectorId == ['r', 'e', 'a', 'd', 'e', 'r', '1'];
    }
    assert TopicFor(Gpos, lectorId) == "readers/" + lectorId + "/gpos/events";
  }

  /** With a client, the i-th announcement is the event of the i-th output. */
  lemma {:induction false} AnnouncementAt(lectorId: string, cs: seq<GpoConfig>, i: nat)
    requires lectorId == GpoLectorId && i < |cs|
    ensures Announcements(true, lectorId, cs)[i] == Send(GpoEvent(cs[i]))
    decreases |cs|
  {
    var init, last := cs[..|cs| - 1], cs[|cs| - 1];
    assert Announcements(true, lectorId, cs) == Announcements(true, lectorId, init) + Announce(true, lectorId, last);
    if i < |cs| - 1 {
      AnnouncementAt(lectorId, init, i);
      assert init[i] == cs[i];
    } else {
      AnnounceToReader1(lectorId, last);
    }
  }

  class GpoService {
    /** The default reader's address; this service does not go through the reader registry. */
    const host: string
    /** Whether the bus client exists. */
    const client: bool
    /** `LECTOR_ID`: the reader every GPO event is published for. */
    const lectorId: string

    var now: int
    /** `gpoTimeout`: the last timer scheduled, until its callback completes. */
    var gpoTimeout: Option<Timer>
    /** Timers scheduled and neither fired nor cleared. */
    var armed: set<nat>
    var nextTimer: nat
    var trace: seq<Effect>

    /** At most one timer is armed, and it is the one `gpoTimeout` holds. */
    ghost predicate Valid()
      reads this
    {
      && (armed == {} || (gpoTimeout.Some? && armed == {gpoTimeout.value.id}))
      && (gpoTimeout.Some? ==> gpoTimeout.value.id < nextTimer)
    }

    constructor (host: string, client: bool)
      ensures this.host == host && this.client == client && lectorId == GpoLectorId
      ensures now == 0 && gpoTimeout == None && armed == {} && nextTimer == 0 && trace == []
      ensures Valid()
    {
      this.host := host;
      this.client := client;
      lectorId := GpoLectorId;
      now := 0;
      gpoTimeout := None;
      armed := {};
      nextTimer := 0;
      trace := [];
    }

    /** Where the GPO configuration is PUT. */
    function Url(): string
    {
      host + "/api/v1/device/gpos"
    }

    /**
     * `configureGpos`: one PUT with the whole list; when it succeeds, one `gpo_state_change`
     * per entry in list order; when it fails, no event and the service's error object.
     */
    method ConfigureGpos(cs: seq<GpoConfig>, fault: Option<AxiosError>) returns (r: Result<bool, ServiceError>)
      modifies this
      ensures now == old(now) && gpoTimeout == old(gpoTimeout) && armed == old(armed) && nextTimer == old(nextTimer)
      ensures trace == old(trace) + [Put(Url(), GposBody(cs))] + (if fault.None? then Announcements(client, lectorId, cs) else [])
      ensures fault.None? ==> r == Success(true)
      ensures fault.Some? ==> r == Failure(ServiceError(500, "Error al configurar GPOs", Str(fault.value.message)))
    {
      trace := trace + [Put(Url(), GposBody(cs))];
      if fault.Some? {
        r := Failure(Rethrow(Intercept(fault.value), "Error al configurar GPOs"));
        return;
      }
      var i := 0;
      while i < |cs|
        invariant 0 <= i <= |cs|
        invariant now == old(now) && gpoTimeout == old(gpoTimeout) && armed == old(armed) && nextTimer == old(nextTimer)
        invariant trace == old(trace) + [Put(Url(), GposBody(cs))] + Announcements(client, lectorId, cs[..i])
      {
        AnnouncementsSnoc(client, lectorId, cs, i);
        trace := trace + Announce(client, lectorId, cs[i]);
        i := i + 1;
      }
      assert cs[..i] == cs;
      r := Success(true);
    }

    /**
     * `activarGpos(duracion = 3000)`: clear the pending timer if there is one, switch 1 and 3
     * high, then schedule the auto-deactivation. On failure nothing is scheduled, and the
     * cleared timer stays cleared.
     */
    method Activar(duracion: Option<int>, fault: Option<AxiosError>) returns (r: Result<bool, ServiceError>)
      requires Valid()
      modifies this
      ensures Valid()
      ensures now == old(now)
      ensures var cleared := if old(gpoTimeout).Some? then [ClearTimer(old(gpoTimeout).value.id)] else [];
        && (fault.None? ==>
              && r == Success(true)
              && gpoTimeout == Some(Timer(old(nextTimer), now + EffectiveDelay(duracion.GetOr(DefaultDuracion))))
              && armed == {old(nextTimer)} && nextTimer == old(nextTimer) + 1
              && trace == old(trace) + cleared + [Put(Url(), GposBody(High))] + Announcements(client, lectorId, High)
                          + [SetTimer(old(nextTimer), duracion.GetOr(DefaultDuracion))])
        && (fault.Some? ==>
              && r == Failure(ServiceError(500, "Error al activar GPOs", Str("Error al configurar GPOs")))
              && gpoTimeout == old(gpoTimeout) && armed == {} && nextTimer == old(nextTimer)
              && trace == old(trace) + cleared + [Put(Url(), GposBody(High))])
    {
      var d := duracion.GetOr(DefaultDuracion);
      if gpoTimeout.Some? {
        trace := trace + [ClearTimer(gpoTimeout.value.id)];
        armed := armed - {gpoTimeout.value.id};
      }
      var inner := ConfigureGpos(High, fault);
      if inner.Failure? {
        r := Failure(Rethrow(inner.error, "Error al activar GPOs"));
        return;
      }
      var t := Timer(nextTimer, now + EffectiveDelay(d));
      trace := trace + [SetTimer(t.id, d)];
      gpoTimeout := Some(t);
      armed := {t.id};
      nextTimer := nextTimer + 1;
      r := Success(true);
    }

    /** `desactivarGpos`: switch 1 and 3 low; the timer is left alone. */
    method Desactivar(fault: Option<AxiosError>) returns (r: Result<bool, ServiceError>)
      modifies this
      ensures now == old(now) && gpoTimeout == old(gpoTimeout) && armed == old(armed) && nextTimer == old(nextTimer)
      ensures trace == old(trace) + [Put(Url(), GposBody(Low))] + (if fault.None? then Announcements(client, lectorId, Low) else [])
      ensures fault.None? ==> r == Success(true)
      ensures fault.Some? ==> r == Failure(ServiceError(500, "Error al desactivar GPOs", Str("Error al configurar GPOs")))
    {
      var inner := ConfigureGpos(Low, fault);
      if inner.Failure? {
        r := Failure(Rethrow(inner.error, "Error al desactivar GPOs"));
        return;
      }
      r := Success(true);
    }

    /** The armed timer whose time has come, if any. */
    predicate Due()
      reads this
    {
      gpoTimeout.Some? && gpoTimeout.value.id in armed && gpoTimeout.value.due <= now
    }

    /**
     * `dt` milliseconds pass. A due timer fires: its callback switches the outputs low and then
     * clears `gpoTimeout`; when switching low fails the callback stops there and `gpoTimeout`
     * keeps the spent timer.
     */
    method Tick(dt: nat, fault: Option<AxiosError>) returns (fired: bool)
      requires Valid()
      modifies this
      ensures Valid()
      ensures now == old(now) + dt && nextTimer == old(nextTimer)
      ensures fired <==> old(gpoTimeout).Some? && old(gpoTimeout).value.id in old(armed) && old(gpoTimeout).value.due <= now
      ensures fired ==> armed == {} && trace == old(trace) + [Put(Url(), GposBody(Low))] + (if fault.None? then Announcements(client, lectorId, Low) else [])
                        && gpoTimeout == (if fault.None? then None else old(gpoTimeout))
      ensures !fired ==> armed == old(armed) && trace == old(trace) && gpoTimeout == old(gpoTimeout)
    {
      now := now + dt;
      fired := Due();
      if fired {
        armed := armed - {gpoTimeout.value.id};
        var r := Desactivar(fault);
        if r.Success? {
          gpoTimeout := None;
        }
      }
    }
  }

  /** Two activations in a row leave only the second timer armed. */
  method TwoActivations(host: string, client: bool) returns (s: GpoService)
    ensures s.armed == {1} && s.gpoTimeout == Some(Timer(1, 3000))
  {
    s := new GpoService(host, client);
    var r1 := s.Activar(None, None);
    var r2 := s.Activar(None, None);
  }

  /** Switching low by hand does not cancel the pending auto-deactivation: it fires later and switches low again. */
  method ManualThenAutomatic(host: string) returns (s: GpoService, fired: bool)
    ensures fired && s.gpoTimeout == None
    ensures s.trace == [Put(s.Url(), GposBody(High)), SetTimer(0, 3000), Put(s.Url(), GposBody(Low)), Put(s.Url(), GposBody(Low))]
  {
    s := new GpoService(host, false);
    var r1 := s.Activar(None, None);
    var r2 := s.Desactivar(None);
    fired := s.Tick(3000, None);
  }

  /**
   * A failed re-activation leaves no timer armed: the outputs switched high by the first
   * activation are never switched low automatically.
   */
  method FailedReactivation(host: string, e: AxiosError) returns (s: GpoService, fired: bool)
    ensures s.armed == {} && !fired
  {
    s := new GpoService(host, false);
    var r1 := s.Activar(None, None);
    var r2 := s.Activar(None, Some(e));
    fired := s.Tick(TimeoutMax, None);
  }
}
