/**
 * The EPC service: identifier resolution against the table, identifier normalisation, and
 * adding and removing catalogue entries.
 *
 * Resolution and normalisation are functions. Adding and removing change the catalogue array
 * and the table in place and are methods of `EpcStore`, each tied to a function on `Store`
 * values (`Agregar`, `Eliminar`) that states the new state and the outcome.
 */
module EpcService {
  import opened Wrappers
  import opened Strings
  import opened Epc
  import opened EpcCatalogue

  // ---------------------------------------------------------------------------------------
  // procesarEpc

  /** What `procesarEpc` returns; `info` is absent and `generado` false when the source omits them. */
  datatype Resolution = Resolution(valido: bool, info: Option<Record>, epc: string, generado: bool)

  /** `'AUTO-' + epc.substring(0, 6)` */
  function AutoClave(epc: string): string
  {
    "AUTO-" + Prefix(epc, 6)
  }

  /**
   * `procesarEpc`: an exact table lookup with no normalisation; on a miss in permissive mode a
   * copy of the template carrying the observed identifier.
   */
  function ProcesarEpc(mapa: map<string, Record>, permisivo: bool, plantilla: Record, epc: string): (res: Resolution)
    ensures res.epc == epc
    ensures res.valido <==> epc in mapa || permisivo
    ensures res.info.Some? <==> res.valido
    ensures res.generado <==> epc !in mapa && permisivo
    ensures epc in mapa ==> res.info == Some(mapa[epc])
    ensures res.generado ==> res.info == Some(plantilla.(claveProducto := AutoClave(epc), rfid := epc, rfidOriginal := Some(epc)))
  {
    if epc in mapa then
      Resolution(true, Some(mapa[epc]), epc, false)
    else if permisivo then
      var infoGenerica := plantilla.(rfidOriginal := Some(epc), rfid := epc, claveProducto := AutoClave(epc));
      Resolution(true, Some(infoGenerica), epc, true)
    else
      Resolution(false, None, epc, false)
  }

  /**
   * A fabricated record reports the observed identifier and keeps every descriptive field of
   * the template; the product key starts with `AUTO-` and carries at most six characters of it.
   */
  lemma FabricatedRecord(mapa: map<string, Record>, plantilla: Record, epc: string)
    requires epc !in mapa
    ensures var r := ProcesarEpc(mapa, true, plantilla, epc).info.value;
      && r.rfid == epc && r.rfidOriginal == Some(epc)
      && StartsWith(r.claveProducto, "AUTO-") && |r.claveProducto| <= 11
      && StartsWith(epc, r.claveProducto[5..])
      && r.nombreProducto == plantilla.nombreProducto && r.pesoBruto == plantilla.pesoBruto
      && r.pesoNeto == plantilla.pesoNeto && r.piezas == plantilla.piezas && r.orden == plantilla.orden
      && r.claveUnidad == plantilla.claveUnidad && r.trazabilidad == plantilla.trazabilidad
  {
    var r := ProcesarEpc(mapa, true, plantilla, epc).info.value;
    assert r.claveProducto == "AUTO-" + Prefix(epc, 6);
    assert r.claveProducto[..5] == "AUTO-";
    assert r.claveProducto[5..] == Prefix(epc, 6);
  }

  /**
   * Against a table built from a catalogue, every variant of a record resolves to that record
   * unless a later record derives the same variant.
   */
  lemma ProcesarVariant(c: seq<Record>, permisivo: bool, plantilla: Record, i: nat, k: string)
    requires i < |c| && k in Variants(c[i].rfid)
    requires forall j :: i < j < |c| ==> k !in Variants(c[j].rfid)
    ensures ProcesarEpc(TableOf(c), permisivo, plantilla, k) == Resolution(true, Some(c[i]), k, false)
  {
    TableLastWriterWins(c, i, k);
  }

  /** With permissive mode on, every identifier is reported valid. */
  lemma ProcesarPermisivoAlwaysValid(mapa: map<string, Record>, plantilla: Record, epc: string)
    ensures ProcesarEpc(mapa, true, plantilla, epc).valido
    ensures ProcesarEpc(mapa, true, plantilla, epc).info.Some?
  {
  }

  // ---------------------------------------------------------------------------------------
  // normalizarEpc

  /** `s.replace(/[^a-zA-Z0-9]/g, '')` */
  function KeepAlnum(s: string): (r: string)
    ensures |r| <= |s|
    ensures forall i :: 0 <= i < |r| ==> IsAlnum(r[i])
    ensures multiset(r) <= multiset(s)
    ensures |s| == 1 ==> r == (if IsAlnum(s[0]) then s else [])
    decreases |s|
  {
    if s == [] then []
    else
      assert s == [s[0]] + s[1..];
      if IsAlnum(s[0]) then [s[0]] + KeepAlnum(s[1..]) else KeepAlnum(s[1..])
  }

  /** The filter works character by character: filtering a concatenation filters each part. */
  lemma {:induction false} KeepAlnumAppend(a: string, b: string)
    ensures KeepAlnum(a + b) == KeepAlnum(a) + KeepAlnum(b)
    decreases |a|
  {
    if a != [] {
      KeepAlnumAppend(a[1..], b);
      assert (a + b)[0] == a[0];
      assert (a + b)[1..] == a[1..] + b;
      if IsAlnum(a[0]) {
        calc {
          KeepAlnum(a + b);
          [a[0]] + KeepAlnum(a[1..] + b);
          [a[0]] + (KeepAlnum(a[1..]) + KeepAlnum(b));
          ([a[0]] + KeepAlnum(a[1..])) + KeepAlnum(b);
        }
      }
    } else {
      assert a + b == b;
    }
  }

  /** `[A-Z0-9]` */
  predicate IsUpperAlnum(c: char)
  {
    IsAsciiUpper(c) || IsDigit(c)
  }

  /**
   * `normalizarEpc`: drop every character outside `[A-Za-z0-9]`, then upper-case. The result
   * holds only upper-case letters and digits and is no longer than the input.
   */
  function NormalizarEpc(epc: string): (r: string)
    ensures |r| <= |epc|
    ensures forall i :: 0 <= i < |r| ==> IsUpperAlnum(r[i])
  {
    var kept := KeepAlnum(epc);
    ToUpperSpec(kept);
    assert forall i :: 0 <= i < |kept| ==> IsUpperAlnum(ToUpper(kept)[i]) by {
      forall i | 0 <= i < |kept|
        ensures IsUpperAlnum(ToUpper(kept)[i])
      {
        assert IsAlnum(kept[i]);
      }
    }
    ToUpper(kept)
  }

  /** A string already in `[A-Z0-9]*` is left alone. */
  lemma {:induction false} NormalizarFixes(s: string)
    requires forall i :: 0 <= i < |s| ==> IsUpperAlnum(s[i])
    ensures KeepAlnum(s) == s
    ensures NormalizarEpc(s) == s
    decreases |s|
  {
    if s != [] {
      NormalizarFixes(s[1..]);
      assert IsAlnum(s[0]);
    }
    ToUpperSpec(s);
    assert forall i :: 0 <= i < |s| ==> !IsAsciiLower(s[i]);
    ToUpperNoLower(s);
  }

  /** Normalising twice is normalising once. */
  lemma NormalizarIdempotent(epc: string)
    ensures NormalizarEpc(NormalizarEpc(epc)) == NormalizarEpc(epc)
  {
    NormalizarFixes(NormalizarEpc(epc));
  }

  // ---------------------------------------------------------------------------------------
  // agregarEpc and eliminarEpc on values

  /** The catalogue array and the identifier table together. */
  datatype Store = Store(detalle: seq<Record>, mapa: map<string, Record>)

  /** The state after an operation and what it returned or threw. */
  datatype Outcome<T> = Outcome(store: Store, result: Result<T, Exception>)

  const MissingFieldsMessage: string := "El EPC debe tener rfid, claveProducto y nombreProducto"

  /** Every table entry is a catalogue record and the table is the one the catalogue builds. */
  predicate Consistent(s: Store)
  {
    s.mapa == TableOf(s.detalle)
  }

  /**
   * `agregarEpc` as written. The required fields are compared with the empty string, the only
   * falsy value a string field can take. After the push the function reaches `mapaEPC.set` on
   * a name the module never declares, which throws a `ReferenceError`: the catalogue keeps the
   * new record and the table does not learn it.
   */
  function Agregar(s: Store, e: Record): (o: Outcome<Record>)
    ensures o.result.Failure?
    ensures (e.rfid == "" || e.claveProducto == "" || e.nombreProducto == "" || e.rfid in s.mapa) ==> o.store == s
    ensures !(e.rfid == "" || e.claveProducto == "" || e.nombreProducto == "" || e.rfid in s.mapa) ==>
      o.store == Store(s.detalle + [e], s.mapa) && o.result.error.name == "ReferenceError"
  {
    if e.rfid == "" || e.claveProducto == "" || e.nombreProducto == "" then
      Outcome(s, Failure(Exception("Error", MissingFieldsMessage)))
    else if e.rfid in s.mapa then
      Outcome(s, Failure(Exception("Error", "El EPC " + e.rfid + " ya existe")))
    else
      Outcome(Store(s.detalle + [e], s.mapa), Failure(Exception("ReferenceError", "mapaEPC is not defined")))
  }

  /**
   * `agregarEpc` as evidently intended: the variants go into the module's table, with the same
   * five writes the catalogue builder uses, and the record is returned. The fifth write,
   * `"E2" + rfid`, is one the handler's own list of four writes lacks; it is made here so that
   * the table stays the one the catalogue builder would produce.
   */
  function AgregarCorregido(s: Store, e: Record): (o: Outcome<Record>)
    ensures o.result.Success? <==> e.rfid != "" && e.claveProducto != "" && e.nombreProducto != "" && e.rfid !in s.mapa
    ensures o.result.Failure? ==> o.store == s
    ensures o.result.Success? ==> o.result.value == e && o.store.detalle == s.detalle + [e]
    ensures o.result.Success? ==> forall k :: k in Variants(e.rfid) ==> k in o.store.mapa && o.store.mapa[k] == e
  {
    if e.rfid == "" || e.claveProducto == "" || e.nombreProducto == "" then
      Outcome(s, Failure(Exception("Error", MissingFieldsMessage)))
    else if e.rfid in s.mapa then
      Outcome(s, Failure(Exception("Error", "El EPC " + e.rfid + " ya existe")))
    else
      RegisterSpec(s.mapa, e);
      Outcome(Store(s.detalle + [e], Register(s.mapa, e)), Success(e))
  }

  /** The corrected add keeps the table equal to the one the catalogue builds. */
  lemma AgregarCorregidoConsistent(s: Store, e: Record)
    requires Consistent(s)
    ensures Consistent(AgregarCorregido(s, e).store)
  {
    var o := AgregarCorregido(s, e);
    if o.result.Success? {
      assert (s.detalle + [e])[..|s.detalle|] == s.detalle;
    }
  }

  /** As written, a successful-looking add leaves the catalogue and the table out of step. */
  lemma AgregarLeavesTableStale(s: Store, e: Record)
    requires Consistent(s)
    requires e.rfid != "" && e.claveProducto != "" && e.nombreProducto != "" && e.rfid !in s.mapa
    ensures var o := Agregar(s, e);
      && e in o.store.detalle && e.rfid !in o.store.mapa && !Consistent(o.store)
  {
    var o := Agregar(s, e);
    var c := s.detalle + [e];
    TableKeys(c, e.rfid);
    assert c[|c| - 1] == e;
    assert e.rfid in TableOf(c);
  }

  /** `Array.prototype.findIndex(x => x.rfid === rfid)`, with -1 for no match. */
  function FindIndex(detalle: seq<Record>, rfid: string): (r: int)
    ensures -1 <= r < |detalle|
    ensures r >= 0 ==> detalle[r].rfid == rfid && forall j :: 0 <= j < r ==> detalle[j].rfid != rfid
    ensures r == -1 ==> forall j :: 0 <= j < |detalle| ==> detalle[j].rfid != rfid
    decreases |detalle|
  {
    if detalle == [] then -1
    else if detalle[0].rfid == rfid then 0
    else
      var r := FindIndex(detalle[1..], rfid);
      if r == -1 then -1 else r + 1
  }

  /** `a.splice(start, 1)` on the array, for any integer `start`: a negative start counts from the end. */
  function SpliceOne<T>(a: seq<T>, start: int): (r: seq<T>)
    ensures 0 <= start < |a| ==> r == a[..start] + a[start + 1..]
    ensures start == -1 && a != [] ==> r == a[..|a| - 1]
    ensures start >= |a| || (start < 0 && a == []) ==> r == a
  {
    var actual := if start < 0 then (if |a| + start < 0 then 0 else |a| + start) else (if start < |a| then start else |a|);
    var count := if |a| - actual < 1 then |a| - actual else 1;
    a[..actual] + a[actual + count..]
  }

  /** The four keys `eliminarEpc` deletes: the argument, its stripped, upper-case and toggled forms. */
  function DeletedKeys(rfid: string): set<string>
  {
    {rfid, StripLeadingZeros(rfid), ToUpper(rfid), Toggle00(rfid)}
  }

  /**
   * `eliminarEpc` as written: delete four variants of the argument (not `"E2" + rfid`), then
   * splice out the index `findIndex` reports for the argument, -1 included.
   */
  function Eliminar(s: Store, rfid: string): (o: Outcome<bool>)
    ensures rfid !in s.mapa ==> o == Outcome(s, Failure(Exception("Error", "El EPC " + rfid + " no existe")))
    ensures rfid in s.mapa ==> o.result == Success(true)
  {
    if rfid !in s.mapa then
      Outcome(s, Failure(Exception("Error", "El EPC " + rfid + " no existe")))
    else
      var index := FindIndex(s.detalle, rfid);
      Outcome(Store(SpliceOne(s.detalle, index), s.mapa - DeletedKeys(rfid)), Success(true))
  }

  /**
   * A removal deletes exactly the four keys, keeps every other entry as it was, and shortens a
   * non-empty catalogue by one.
   */
  lemma EliminarEffect(s: Store, rfid: string, k: string)
    requires rfid in s.mapa
    ensures var o := Eliminar(s, rfid);
      && (k in o.store.mapa <==> k in s.mapa && k !in DeletedKeys(rfid))
      && (k in o.store.mapa ==> o.store.mapa[k] == s.mapa[k])
      && |o.store.detalle| == if s.detalle == [] then 0 else |s.detalle| - 1
  {
  }

  /** The `E2` variant is never among the deleted keys, so it keeps resolving after a removal. */
  lemma EliminarKeepsE2(s: Store, rfid: string)
    requires rfid in s.mapa && "E2" + rfid in s.mapa
    ensures var o := Eliminar(s, rfid);
      "E2" + rfid in o.store.mapa && o.store.mapa["E2" + rfid] == s.mapa["E2" + rfid]
  {
    var e2 := "E2" + rfid;
    StripLeadingZerosSpec(rfid);
    ToUpperSpec(rfid);
    assert |e2| == |rfid| + 2;
    if StartsWith(rfid, "00") {
      assert |Toggle00(rfid)| == |rfid| - 2;
    } else {
      assert Toggle00(rfid)[0] == '0' && e2[0] == 'E';
    }
    assert e2 !in DeletedKeys(rfid);
  }

  /**
   * Removing by an identifier that is a table key but no record's own `rfid` splices out the
   * LAST catalogue record, whatever record the key resolves to.
   */
  lemma EliminarVariantDropsLast(s: Store, rfid: string)
    requires rfid in s.mapa && s.detalle != []
    requires forall j :: 0 <= j < |s.detalle| ==> s.detalle[j].rfid != rfid
    ensures Eliminar(s, rfid).store.detalle == s.detalle[..|s.detalle| - 1]
  {
  }

  /** Removing by a record's own `rfid` splices out the first record carrying it. */
  lemma EliminarCanonical(s: Store, i: nat)
    requires i < |s.detalle| && s.detalle[i].rfid in s.mapa
    requires forall j :: 0 <= j < i ==> s.detalle[j].rfid != s.detalle[i].rfid
    ensures Eliminar(s, s.detalle[i].rfid).store.detalle == s.detalle[..i] + s.detalle[i + 1..]
  {
  }

  /** The catalogue without the first record carrying `rfid`, or unchanged when none does. */
  function RemoveFirst(c: seq<Record>, rfid: string): (r: seq<Record>)
    ensures (forall j :: 0 <= j < |c| ==> c[j].rfid != rfid) ==> r == c
    ensures forall i :: (0 <= i < |c| && c[i].rfid == rfid && forall j :: 0 <= j < i ==> c[j].rfid != rfid) ==>
      r == c[..i] + c[i + 1..]
  {
    var index := FindIndex(c, rfid);
    if index == -1 then c else SpliceOne(c, index)
  }

  /**
   * `eliminarEpc` as evidently intended: every variant of the record the argument resolves
   * to is deleted, `E2` included, and the catalogue loses that record rather than whatever
   * `splice(-1, 1)` reaches.
   */
  function EliminarCorregido(s: Store, rfid: string): (o: Outcome<bool>)
    ensures rfid !in s.mapa ==> o == Outcome(s, Failure(Exception("Error", "El EPC " + rfid + " no existe")))
    ensures rfid in s.mapa ==> o.result == Success(true)
    ensures rfid in s.mapa ==> forall k :: k in Variants(s.mapa[rfid].rfid) ==> k !in o.store.mapa
    ensures rfid in s.mapa ==> forall k :: k in o.store.mapa ==> k in s.mapa && o.store.mapa[k] == s.mapa[k]
    ensures rfid in s.mapa ==> forall k :: k in s.mapa && k !in Variants(s.mapa[rfid].rfid) ==> k in o.store.mapa
    ensures rfid in s.mapa && (forall j :: 0 <= j < |s.detalle| ==> s.detalle[j].rfid != s.mapa[rfid].rfid) ==>
      o.store.detalle == s.detalle
    ensures rfid in s.mapa ==> forall i ::
      (0 <= i < |s.detalle| && s.detalle[i].rfid == s.mapa[rfid].rfid && forall j :: 0 <= j < i ==> s.detalle[j].rfid != s.mapa[rfid].rfid) ==>
        o.store.detalle == s.detalle[..i] + s.detalle[i + 1..]
  {
    if rfid !in s.mapa then
      Outcome(s, Failure(Exception("Error", "El EPC " + rfid + " no existe")))
    else
      var r := s.mapa[rfid];
      var keys := set k | k in Variants(r.rfid);
      Outcome(Store(RemoveFirst(s.detalle, r.rfid), s.mapa - keys), Success(true))
  }

  /**
   * In a consistent store the corrected removal finds a record carrying the resolved record's
   * `rfid` (the first such, which is the resolved record unless the catalogue repeats an `rfid`).
   */
  lemma EliminarCorregidoRemovesRecord(s: Store, rfid: string)
    requires Consistent(s) && rfid in s.mapa
    ensures var i := FindIndex(s.detalle, s.mapa[rfid].rfid);
      0 <= i < |s.detalle| && s.detalle[i].rfid == s.mapa[rfid].rfid
      && EliminarCorregido(s, rfid).store.detalle == s.detalle[..i] + s.detalle[i + 1..]
  {
    var r := s.mapa[rfid];
    TableValuesInCatalog(s.detalle, rfid);
    var j :| 0 <= j < |s.detalle| && s.detalle[j] == r;
    assert s.detalle[j].rfid == r.rfid;
  }

  /**
   * Corrected add followed by corrected remove of the same identifier restores the store,
   * provided none of the new record's variants was a key before.
   */
  lemma AgregarEliminarCorregidoRoundTrip(s: Store, e: Record)
    requires Consistent(s)
    requires e.rfid != "" && e.claveProducto != "" && e.nombreProducto != ""
    requires forall k :: k in Variants(e.rfid) ==> k !in s.mapa
    ensures var added := AgregarCorregido(s, e).store;
      EliminarCorregido(added, e.rfid).store == s
  {
    var added := AgregarCorregido(s, e).store;
    assert e.rfid in Variants(e.rfid);
    assert added.mapa[e.rfid] == e;
    NewRecordLast(s, e);
    var o := EliminarCorregido(added, e.rfid);
    assert o.store.mapa == s.mapa by {
      RegisterSpec(s.mapa, e);
    }
  }

  /** The record just appended is the first one carrying its `rfid`, and removing it gives back the catalogue. */
  lemma NewRecordLast(s: Store, e: Record)
    requires Consistent(s)
    requires forall k :: k in Variants(e.rfid) ==> k !in s.mapa
    ensures var c := s.detalle + [e]; RemoveFirst(c, e.rfid) == s.detalle
  {
    var c := s.detalle + [e];
    var n := |s.detalle|;
    TableCoversVariants(s.detalle);
    forall j | 0 <= j < n
      ensures c[j].rfid != e.rfid
    {
      assert c[j] == s.detalle[j] && s.detalle[j] in s.detalle;
      assert s.detalle[j].rfid in Variants(s.detalle[j].rfid);
    }
    assert c[n] == e;
    assert c[..n] + c[n + 1..] == s.detalle;
  }

  /** As written, the same add-then-remove leaves the new record in the catalogue for good. */
  lemma AgregarEliminarRoundTripFails(s: Store, e: Record)
    requires Consistent(s)
    requires e.rfid != "" && e.claveProducto != "" && e.nombreProducto != "" && e.rfid !in s.mapa
    ensures var added := Agregar(s, e).store;
      var removed := Eliminar(added, e.rfid);
      removed.result.Failure? && removed.store.detalle == s.detalle + [e]
  {
  }

  // ---------------------------------------------------------------------------------------
  // The shipped catalogue

  /** A shipped record's stripped identifier resolves to the record itself, not a fabricated one. */
  lemma SeedResolvesStripped(c: seq<Record>)
    requires c == Seed
    ensures ProcesarEpc(TableOf(c), ModoPermisivo, DatosGenericos, c[0].rfid[3..]) == Resolution(true, Some(c[0]), c[0].rfid[3..], false)
  {
    SeedOwners(c, 0, c[0].rfid[3..]);
  }

  /** Every key of a padded identifier starts with a digit or `E`. */
  lemma PaddedKeysLead(rfid: string, k: string)
    requires PaddedDigits(rfid) && k in PaddedKeys(rfid)
    ensures |k| > 0 && (IsDigit(k[0]) || k[0] == 'E')
  {
    assert IsDigit(rfid[2]) && IsDigit(rfid[3]);
  }

  /** Every key of the shipped table starts with a digit or `E`. */
  lemma SeedKeysLead(c: seq<Record>, k: string)
    requires c == Seed && k in TableOf(c)
    ensures |k| > 0 && (IsDigit(k[0]) || k[0] == 'E')
  {
    SeedKeys(c);
    SeedPadded(c);
    if k in PaddedKeys(c[0].rfid) {
      PaddedKeysLead(c[0].rfid, k);
    } else if k in PaddedKeys(c[1].rfid) {
      PaddedKeysLead(c[1].rfid, k);
    } else {
      PaddedKeysLead(c[2].rfid, k);
    }
  }

  /** An identifier starting with anything but a digit or `E` is fabricated from the template. */
  lemma SeedFabricates(c: seq<Record>, epc: string)
    requires c == Seed && |epc| > 0 && !IsDigit(epc[0]) && epc[0] != 'E'
    ensures var res := ProcesarEpc(TableOf(c), ModoPermisivo, DatosGenericos, epc);
      res.valido && res.generado && res.info.value.rfid == epc && res.info.value.claveProducto == AutoClave(epc)
      && res.info.value.nombreProducto == c[0].nombreProducto
  {
    if epc in TableOf(c) {
      SeedKeysLead(c, epc);
    }
  }

  /** A worked example: `FFFFAAAA1111` becomes product `AUTO-FFFFAA`. */
  lemma AutoClaveExample(epc: string)
    requires epc == "FFFFAAAA1111"
    ensures AutoClave(epc) == "AUTO-FFFFAA"
  {
    assert Prefix(epc, 6) == "FFFFAA";
  }

  /**
   * In a catalogue of three distinct padded identifiers, removing the first record by its
   * stripped identifier splices out the third record and leaves the first record's own `rfid`
   * resolving to it.
   */
  lemma ThreeRecordEliminarStripped(c: seq<Record>)
    requires |c| == 3 && PaddedDigits(c[0].rfid) && PaddedDigits(c[1].rfid) && PaddedDigits(c[2].rfid)
    requires c[0].rfid != c[1].rfid && c[0].rfid != c[2].rfid && c[1].rfid != c[2].rfid
    ensures var o := Eliminar(Store(c, TableOf(c)), c[0].rfid[3..]);
      o.result == Success(true) && o.store.detalle == c[..2]
      && c[0].rfid in o.store.mapa && o.store.mapa[c[0].rfid] == c[0]
  {
    var rfid := c[0].rfid;
    var arg := rfid[3..];
    var s := Store(c, TableOf(c));
    ThreeRecordOwners(c, 0, arg);
    ThreeRecordOwners(c, 0, rfid);
    forall j | 0 <= j < 3
      ensures c[j].rfid != arg
    {
      assert c[j].rfid[0] == c[j].rfid[..3][0] == '0';
    }
    EliminarVariantDropsLast(s, arg);
    StrippedSpared(rfid);
    EliminarEffect(s, arg, rfid);
  }

  /** Removing a padded identifier's stripped form never deletes the padded identifier itself. */
  lemma StrippedSpared(rfid: string)
    requires PaddedDigits(rfid)
    ensures rfid !in DeletedKeys(rfid[3..])
  {
    var arg := rfid[3..];
    forall i | 0 <= i < |arg|
      ensures !IsAsciiLower(arg[i])
    {
      assert arg[i] == rfid[i + 3];
    }
    ToUpperNoLower(arg);
    assert StripLeadingZeros(arg) == arg;
    assert !StartsWith(arg, "00");
    assert |Toggle00(arg)| == |arg| + 2 == |rfid| - 1;
  }

  /**
   * The shipped catalogue: removing `2601014737010`, the first record's stripped identifier,
   * splices out the third record, and `0002601014737010` still resolves to the first.
   */
  lemma SeedEliminarStripped(c: seq<Record>)
    requires c == Seed
    ensures var o := Eliminar(Store(c, TableOf(c)), c[0].rfid[3..]);
      o.result == Success(true) && o.store.detalle == c[..2]
      && c[0].rfid in o.store.mapa && o.store.mapa[c[0].rfid] == c[0]
  {
    SeedPadded(c);
    ThreeRecordEliminarStripped(c);
  }

  // ---------------------------------------------------------------------------------------
  // The module state, changed in place

  /** `epcModel`: the catalogue array and the table, both shared and mutated in place. */
  class EpcStore {
    var detalle: seq<Record>
    var mapa: map<string, Record>

    function State(): Store
      reads this
    {
      Store(detalle, mapa)
    }

    /** Loading `models/epc.js`: the shipped catalogue and the table built from it. */
    constructor ()
      ensures detalle == Seed && mapa == TableOf(Seed)
    {
      detalle := Seed;
      var m := BuildMapa(Seed);
      mapa := m;
    }

    /** `obtenerEpcs`: the catalogue array itself. */
    function ObtenerEpcs(): seq<Record>
      reads this
    {
      detalle
    }

    /** `procesarEpc` against the current table, permissive mode and template. */
    function Procesar(epc: string): (res: Resolution)
      reads this
      ensures res.valido && res.info.Some? && res.epc == epc
      ensures epc in mapa ==> res.info == Some(mapa[epc])
    {
      ProcesarEpc(mapa, ModoPermisivo, DatosGenericos, epc)
    }

    /** `agregarEpc` as written: push, then the `ReferenceError`. */
    method AgregarEpc(e: Record) returns (res: Result<Record, Exception>)
      modifies this
      ensures Outcome(State(), res) == Agregar(old(State()), e)
    {
      if e.rfid == "" || e.claveProducto == "" || e.nombreProducto == "" {
        return Failure(Exception("Error", MissingFieldsMessage));
      }
      if e.rfid in mapa {
        return Failure(Exception("Error", "El EPC " + e.rfid + " ya existe"));
      }
      detalle := detalle + [e];
      res := Failure(Exception("ReferenceError", "mapaEPC is not defined"));
    }

    /** `eliminarEpc` as written: four deletes, then `splice(findIndex(...), 1)`. */
    method EliminarEpc(rfid: string) returns (res: Result<bool, Exception>)
      modifies this
      ensures Outcome(State(), res) == Eliminar(old(State()), rfid)
    {
      if rfid !in mapa {
        return Failure(Exception("Error", "El EPC " + rfid + " no existe"));
      }
      ghost var before := mapa;
      mapa := mapa - {rfid};
      mapa := mapa - {StripLeadingZeros(rfid)};
      mapa := mapa - {ToUpper(rfid)};
      mapa := mapa - {Toggle00(rfid)};
      assert mapa == before - DeletedKeys(rfid);
      var index := FindIndex(detalle, rfid);
      detalle := SpliceOne(detalle, index);
      res := Success(true);
    }
  }
}
