/**
 * The tag catalogue: the seed inventory records and the identifier table that maps five
 * textual variants of every record's EPC to the record.
 */
module Epc {
  import opened Wrappers
  import opened Strings

  /** One catalogue entry. `rfidOriginal` is only present on records the resolver fabricates. */
  datatype Record = Record(
    claveProducto: string,
    nombreProducto: string,
    pesoBruto: int,
    pesoNeto: int,
    piezas: int,
    orden: string,
    claveUnidad: string,
    trazabilidad: string,
    rfid: string,
    rfidOriginal: Option<string>)

  /** `detalleEPCs` as shipped. */
  const Seed: seq<Record> := [
    Record("PT00161", "VASO PLASTICO OK PASTELERÍA 12EU", 0, 0, 20, "23221", "XBX",
           "2601014737010", "0002601014737010", None),
    Record("PT00161", "VASO PLASTICO OK PASTELERÍA 12EU", 0, 0, 20, "23221", "XBX",
           "2601014737009", "0002601014737009", None),
    Record("PT00161", "VASO PLASTICO OK PASTELERÍA 12EU", 0, 0, 20, "23221", "XBX",
           "24010000140030", "00024010000140030", None)
  ]

  /** `modoPermisivo`: unknown identifiers resolve to a fabricated record. */
  const ModoPermisivo: bool := true

  /** `datosGenericos`: the template every fabricated record is copied from. */
  const DatosGenericos: Record := Seed[0]

  /** With a leading `00` drop it, otherwise add it. */
  function Toggle00(rfid: string): (r: string)
    ensures StartsWith(rfid, "00") ==> "00" + r == rfid
    ensures !StartsWith(rfid, "00") ==> r == "00" + rfid
  {
    if StartsWith(rfid, "00") then rfid[2..] else "00" + rfid
  }

  /** The five keys one record is stored under, in the order they are written. */
  function Variants(rfid: string): (vs: seq<string>)
    ensures |vs| == 5 && vs[0] == rfid
  {
    [rfid, StripLeadingZeros(rfid), Toggle00(rfid), ToUpper(rfid), "E2" + rfid]
  }

  /** The five `mapaEPC.set` calls for one record. */
  function Register(m: map<string, Record>, r: Record): (m': map<string, Record>)
    ensures m.Keys <= m'.Keys
    ensures r.rfid in m' && m'[r.rfid] == r
  {
    m[r.rfid := r][StripLeadingZeros(r.rfid) := r][Toggle00(r.rfid) := r][ToUpper(r.rfid) := r]["E2" + r.rfid := r]
  }

  /** Registering a record adds exactly its variants, all resolving to it, and keeps every other entry. */
  lemma RegisterSpec(m: map<string, Record>, r: Record)
    ensures forall k :: k in Register(m, r) <==> k in m || k in Variants(r.rfid)
    ensures forall k :: k in Variants(r.rfid) ==> Register(m, r)[k] == r
    ensures forall k :: k in m && k !in Variants(r.rfid) ==> Register(m, r)[k] == m[k]
  {
  }

  /** `RegisterSpec` at one key. */
  lemma RegisterAt(m: map<string, Record>, r: Record, k: string)
    ensures k in Register(m, r) <==> k in m || k in Variants(r.rfid)
    ensures k in Variants(r.rfid) ==> Register(m, r)[k] == r
    ensures k in m && k !in Variants(r.rfid) ==> Register(m, r)[k] == m[k]
  {
  }

  /** The table the `forEach` loop leaves after registering the records of `c` in order. */
  function TableOf(c: seq<Record>): (m: map<string, Record>)
    ensures c != [] ==> c[|c| - 1].rfid in m && m[c[|c| - 1].rfid] == c[|c| - 1]
    decreases |c|
  {
    if c == [] then map[] else Register(TableOf(c[..|c| - 1]), c[|c| - 1])
  }

  /** Building `mapaEPC`: one pass over the catalogue in order, five writes per record. */
  method BuildMapa(detalle: seq<Record>) returns (mapa: map<string, Record>)
    ensures mapa == TableOf(detalle)
    ensures forall r :: r in mapa.Values ==> r in detalle
  {
    mapa := map[];
    var i := 0;
    while i < |detalle|
      invariant 0 <= i <= |detalle|
      invariant mapa == TableOf(detalle[..i])
    {
      var epc := detalle[i];
      mapa := mapa[epc.rfid := epc];
      mapa := mapa[StripLeadingZeros(epc.rfid) := epc];
      mapa := mapa[Toggle00(epc.rfid) := epc];
      mapa := mapa[ToUpper(epc.rfid) := epc];
      mapa := mapa["E2" + epc.rfid := epc];
      assert detalle[..i + 1][..i] == detalle[..i];
      i := i + 1;
    }
    assert detalle[..i] == detalle;
    TableValues(detalle);
  }

  lemma TableValues(c: seq<Record>)
    ensures forall r :: r in TableOf(c).Values ==> r in c
  {
    forall r | r in TableOf(c).Values
      ensures r in c
    {
      var k :| k in TableOf(c) && TableOf(c)[k] == r;
      TableValuesInCatalog(c, k);
    }
  }

  /** Every record's five variants are keys of the table. */
  lemma TableCoversVariants(c: seq<Record>)
    ensures forall r, k :: r in c && k in Variants(r.rfid) ==> k in TableOf(c)
  {
    forall r, k | r in c && k in Variants(r.rfid)
      ensures k in TableOf(c)
    {
      TableKeys(c, k);
      var i :| 0 <= i < |c| && c[i] == r;
    }
  }

  /** The table's keys are exactly the variants of the catalogue's identifiers. */
  lemma {:induction false} TableKeys(c: seq<Record>, k: string)
    ensures k in TableOf(c) <==> exists i :: 0 <= i < |c| && k in Variants(c[i].rfid)
    decreases |c|
  {
    if c != [] {
      var init := c[..|c| - 1];
      TableKeys(init, k);
      if k in TableOf(init) {
        var i :| 0 <= i < |init| && k in Variants(init[i].rfid);
        assert c[i] == init[i];
      }
      if exists i :: 0 <= i < |c| && k in Variants(c[i].rfid) {
        var i :| 0 <= i < |c| && k in Variants(c[i].rfid);
        if i < |c| - 1 {
          assert init[i] == c[i];
        }
      }
    }
  }

  /** Every value in the table is one of the catalogue's records. */
  lemma {:induction false} TableValuesInCatalog(c: seq<Record>, k: string)
    requires k in TableOf(c)
    ensures TableOf(c)[k] in c
    decreases |c|
  {
    var init := c[..|c| - 1];
    if k !in Variants(c[|c| - 1].rfid) {
      TableValuesInCatalog(init, k);
      assert TableOf(init)[k] in init;
    }
  }

  /**
   * Last write wins: a key resolves to the LAST record of the catalogue that derives it, so a
   * later record takes over a key it shares with an earlier one.
   */
  lemma {:induction false} TableLastWriterWins(c: seq<Record>, i: nat, k: string)
    requires i < |c| && k in Variants(c[i].rfid)
    requires forall j :: i < j < |c| ==> k !in Variants(c[j].rfid)
    ensures k in TableOf(c) && TableOf(c)[k] == c[i]
    decreases |c|
  {
    if i < |c| - 1 {
      var init := c[..|c| - 1];
      assert init[i] == c[i];
      TableLastWriterWins(init, i, k);
    }
  }
}
