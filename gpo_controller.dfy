/**
 * The HTTP handlers in front of the GPO actuator: request validation, construction of the
 * output list, the activation duration's default, and the JSON replies.
 *
 * The request body's fields arrive as `Option<Value>` (`None` when the field is absent);
 * `duracion` is absent or an integer number.
 */
module GpoController {
  import opened Wrappers
  import opened Strings
  import opened Json
  import opened Lector
  import opened Gpo

  /** What a handler does with the request: answer it, or pass the error on with `next`. */
  datatype Reply = Respond(status: int, body: Value) | Next(error: ServiceError)

  const Gpo1Invalid: string := "Estado de GPO1 inválido. Use \"high\" o \"low\""
  const Gpo3Invalid: string := "Estado de GPO3 inválido. Use \"high\" o \"low\""
  const NoGpo: string := "Debe especificar al menos un GPO para configurar"

  /** Absent, `"high"` or `"low"`. */
  predicate ValidState(v: Option<Value>) {
    v.None? || v == Some(Str("high")) || v == Some(Str("low"))
  }

  function ErrorBody(message: string): Value {
    Obj([Member("error", Str(message))])
  }

  function Done(message: string): Value {
    Obj([Member("success", Bool(true)), Member("message", Str(message))])
  }

  /** The output list an accepted request sends: output 1 when `gpo1` is given, then output 3 when `gpo3` is. */
  function Configurations(gpo1: Option<Value>, gpo3: Option<Value>): seq<GpoConfig>
    requires ValidState(gpo1) && ValidState(gpo3)
  {
    (if gpo1.Some? then [GpoConfig(1, gpo1.value.s)] else []) + (if gpo3.Some? then [GpoConfig(3, gpo3.value.s)] else [])
  }

  /**
   * The validation and list construction of `configureGpos`: `gpo1` is checked first, then
   * `gpo3`; the list holds output 1 exactly when `gpo1` is given and output 3 exactly when
   * `gpo3` is given, 1 first; an empty list is refused.
   */
  method BuildConfigurations(gpo1: Option<Value>, gpo3: Option<Value>) returns (r: Result<seq<GpoConfig>, string>)
    ensures !ValidState(gpo1) ==> r == Failure(Gpo1Invalid)
    ensures ValidState(gpo1) && !ValidState(gpo3) ==> r == Failure(Gpo3Invalid)
    ensures ValidState(gpo1) && ValidState(gpo3) && gpo1.None? && gpo3.None? ==> r == Failure(NoGpo)
    ensures r.Success? <==> ValidState(gpo1) && ValidState(gpo3) && (gpo1.Some? || gpo3.Some?)
    ensures r.Success? ==> |r.value| == (if gpo1.Some? then 1 else 0) + (if gpo3.Some? then 1 else 0)
    ensures r.Success? ==> forall i :: 0 <= i < |r.value| ==> r.value[i].state == "high" || r.value[i].state == "low"
    ensures r.Success? ==> forall i :: 0 <= i < |r.value| ==>
              (r.value[i].gpo == 1 && gpo1 == Some(Str(r.value[i].state))) || (r.value[i].gpo == 3 && gpo3 == Some(Str(r.value[i].state)))
    ensures r.Success? && gpo1.Some? ==> r.value[0].gpo == 1
    ensures r.Success? && gpo3.Some? ==> r.value[|r.value| - 1].gpo == 3
    ensures r.Success? ==> r.value == Configurations(gpo1, gpo3)
  {
    if !ValidState(gpo1) {
      return Failure(Gpo1Invalid);
    }
    if !ValidState(gpo3) {
      return Failure(Gpo3Invalid);
    }
    var configs: seq<GpoConfig> := [];
    if gpo1.Some? {
      configs := configs + [GpoConfig(1, gpo1.value.s)];
    }
    if gpo3.Some? {
      configs := configs + [GpoConfig(3, gpo3.value.s)];
    }
    if |configs| == 0 {
      return Failure(NoGpo);
    }
    r := Success(configs);
  }

  /** `configureGpos`: a refused request answers 400 and leaves the actuator alone. */
  method ConfigureGpos(svc: GpoService, gpo1: Option<Value>, gpo3: Option<Value>, fault: Option<AxiosError>) returns (reply: Reply)
    modifies svc
    ensures !(ValidState(gpo1) && ValidState(gpo3) && (gpo1.Some? || gpo3.Some?)) ==> unchanged(svc)
    ensures !ValidState(gpo1) ==> reply == Respond(400, ErrorBody(Gpo1Invalid))
    ensures ValidState(gpo1) && !ValidState(gpo3) ==> reply == Respond(400, ErrorBody(Gpo3Invalid))
    ensures ValidState(gpo1) && ValidState(gpo3) && gpo1.None? && gpo3.None? ==> reply == Respond(400, ErrorBody(NoGpo))
    ensures ValidState(gpo1) && ValidState(gpo3) && (gpo1.Some? || gpo3.Some?) ==>
              && svc.trace == old(svc.trace) + [Put(svc.Url(), GposBody(Configurations(gpo1, gpo3)))]
                   + (if fault.None? then Announcements(svc.client, svc.lectorId, Configurations(gpo1, gpo3)) else [])
              && svc.now == old(svc.now) && svc.gpoTimeout == old(svc.gpoTimeout)
              && svc.armed == old(svc.armed) && svc.nextTimer == old(svc.nextTimer)
              && reply == (if fault.None? then Respond(200, Done("GPOs configurados correctamente"))
                           else Next(ServiceError(500, "Error al configurar GPOs", Str(fault.value.message))))
  {
    var configs := BuildConfigurations(gpo1, gpo3);
    if configs.Failure? {
      return Respond(400, ErrorBody(configs.error));
    }
    var r := svc.ConfigureGpos(configs.value, fault);
    if r.Failure? {
      return Next(r.error);
    }
    reply := Respond(200, Done("GPOs configurados correctamente"));
  }

  /** `req.body.duracion || 3000`: a missing or zero duration becomes the default. */
  function Duracion(d: Option<int>): (r: int)
    ensures r != 0
    ensures d.Some? && d.value != 0 ==> r == d.value
    ensures d.None? || d == Some(0) ==> r == DefaultDuracion
  {
    if d.Some? && d.value != 0 then d.value else DefaultDuracion
  }

  function ActivatedMessage(d: int): string {
    "GPOs 1 y 3 activados por " + IntToDecimal(d) + "ms"
  }

  /** `activarGpos`: the reply names the duration the timer was scheduled with. */
  method Activar(svc: GpoService, duracion: Option<int>, fault: Option<AxiosError>) returns (reply: Reply)
    requires svc.Valid()
    modifies svc
    ensures svc.Valid()
    ensures svc.now == old(svc.now)
    ensures var cleared := if old(svc.gpoTimeout).Some? then [ClearTimer(old(svc.gpoTimeout).value.id)] else [];
        && (fault.None? ==>
              && reply == Respond(200, Done(ActivatedMessage(Duracion(duracion))))
              && svc.gpoTimeout == Some(Timer(old(svc.nextTimer), svc.now + EffectiveDelay(Duracion(duracion))))
              && svc.armed == {old(svc.nextTimer)} && svc.nextTimer == old(svc.nextTimer) + 1
              && svc.trace == old(svc.trace) + cleared + [Put(svc.Url(), GposBody(High))]
                              + Announcements(svc.client, svc.lectorId, High)
                              + [SetTimer(old(svc.nextTimer), Duracion(duracion))])
        && (fault.Some? ==>
              && reply == Next(ServiceError(500, "Error al activar GPOs", Str("Error al configurar GPOs")))
              && svc.gpoTimeout == old(svc.gpoTimeout) && svc.armed == {} && svc.nextTimer == old(svc.nextTimer)
              && svc.trace == old(svc.trace) + cleared + [Put(svc.Url(), GposBody(High))])
  {
    var d := Duracion(duracion);
    var r := svc.Activar(Some(d), fault);
    if r.Failure? {
      return Next(r.error);
    }
    reply := Respond(200, Done(ActivatedMessage(d)));
  }

  /** `desactivarGpos` */
  method Desactivar(svc: GpoService, fault: Option<AxiosError>) returns (reply: Reply)
    modifies svc
    ensures svc.now == old(svc.now) && svc.gpoTimeout == old(svc.gpoTimeout) && svc.armed == old(svc.armed)
    ensures svc.nextTimer == old(svc.nextTimer)
    ensures svc.trace == old(svc.trace) + [Put(svc.Url(), GposBody(Low))]
                         + (if fault.None? then Announcements(svc.client, svc.lectorId, Low) else [])
    ensures fault.None? ==> reply == Respond(200, Done("GPOs 1 y 3 desactivados"))
    ensures fault.Some? ==> reply == Next(ServiceError(500, "Error al desactivar GPOs", Str("Error al configurar GPOs")))
  {
    var r := svc.Desactivar(fault);
    if r.Failure? {
      return Next(r.error);
    }
    reply := Respond(200, Done("GPOs 1 y 3 desactivados"));
  }
}
