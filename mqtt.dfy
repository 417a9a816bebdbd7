/**
 * The message-bus service: what the bridge does with every message a reader publishes, and
 * the envelopes it publishes itself.
 *
 * Everything the service sends out is an `Event`: a socket event to the browser clients or a
 * message on the bus. Handling one incoming message is a function from the topic and the
 * payload to the ordered list of events it causes. The bus connection is a flag (`client`):
 * the publishing helpers send nothing while it is absent. Timestamps are not modelled.
 */
module Mqtt {
  import opened Wrappers
  import opened Strings
  import opened Json
  import opened Topics
  import opened Epc
  import opened EpcCatalogue
  import opened EpcService

  datatype Event = Socket(name: string, payload: Value) | Bus(topic: string, payload: Value)

  // ---------------------------------------------------------------------------------------
  // Topics

  /** `extractLectorIdFromTopic`: the second `/`-separated segment of a `readers/...` topic. */
  function ExtractLectorId(topic: string): (r: Option<string>)
    ensures r.Some? ==> '/' !in r.value
  {
    var parts := SplitOn(topic, '/');
    if |parts| >= 2 && parts[0] == "readers" then Some(parts[1]) else None
  }

  /**
   * A topic names a reader exactly when it starts with `readers/`; the name is the text up to
   * the next `/` and holds no `/` itself.
   */
  lemma ExtractLectorIdSpec(topic: string)
    ensures ExtractLectorId(topic).Some? <==> StartsWith(topic, "readers/")
    ensures ExtractLectorId(topic).Some? ==>
      var id := ExtractLectorId(topic).value;
      '/' !in id && StartsWith(topic, "readers/" + id)
  {
    var parts := SplitOn(topic, '/');
    SplitHead(topic, '/');
    if StartsWith(topic, "readers/") {
      assert topic == "readers" + ['/'] + topic[8..];
      SplitAtFirst("readers", '/', topic[8..]);
    }
    if |parts| >= 2 && parts[0] == "readers" {
      assert StartsWith(topic, "readers/");
      var t := topic[8..];
      assert topic == "readers" + ['/'] + t;
      SplitAtFirst("readers", '/', t);
      assert parts[1] == SplitOn(t, '/')[0];
      SplitHead(t, '/');
      assert topic[..8 + |parts[1]|] == "readers/" + t[..|parts[1]|];
    }
  }

  /** `readers/<id>` followed by nothing or by a `/`-led rest names reader `id`. */
  lemma ExtractFromReaderTopic(id: string, rest: string)
    requires '/' !in id
    requires rest == [] || rest[0] == '/'
    ensures ExtractLectorId("readers/" + id + rest) == Some(id)
  {
    var topic := "readers/" + id + rest;
    assert topic == "readers" + ['/'] + (id + rest);
    SplitAtFirst("readers", '/', id + rest);
    if rest == [] {
      assert id + rest == id;
      SplitNoSeparator(id, '/');
    } else {
      assert id + rest == id + ['/'] + rest[1..];
      SplitAtFirst(id, '/', rest[1..]);
    }
  }

  /** Topic templating and topic parsing round-trip for ids without `/` and `$`. */
  lemma TopicRoundTrip(t: TopicType, id: string)
    requires '/' !in id && '$' !in id
    ensures ExtractLectorId(TopicFor(t, id)) == Some(id)
  {
    assert TopicFor(t, id) == "readers/" + id + Suffix(t);
    ExtractFromReaderTopic(id, Suffix(t));
  }

  /** The same through `getTopic`, for every type the table defines. */
  lemma GetTopicRoundTrip(topicType: string, id: string)
    requires topicType in {"status", "inventory", "gpos", "operations", "errors", "all"}
    requires '/' !in id && '$' !in id
    ensures GetTopic(topicType, Some(id)).Success?
    ensures ExtractLectorId(GetTopic(topicType, Some(id)).value) == Some(id)
  {
    TopicRoundTrip(ParseTopicType(topicType).value, id);
  }

  // ---------------------------------------------------------------------------------------
  // The recursive walk (`searchForEpc`)

  /** The walk gives up below this nesting depth. */
  const MaxDepth: nat := 8

  /** `/epc|tag|rfid|tid/i.test(key)` */
  predicate KeySuggestsEpc(key: string) {
    var k := ToLower(key);
    Contains(k, "epc") || Contains(k, "tag") || Contains(k, "rfid") || Contains(k, "tid")
  }

  /** `value.length >= 8 && /^[0-9A-F]+$/i.test(value)` */
  predicate LooksLikeEpc(s: string) {
    |s| >= 8 && IsHex(s)
  }

  /**
   * What one own property reports before the walk descends into it: a hex-looking string,
   * and the string again when the key suggests an identifier.
   */
  function MemberHits(m: Member): (hits: seq<string>)
    ensures |hits| <= 2
    ensures forall i :: 0 <= i < |hits| ==> m.val == Str(hits[i])
    ensures |hits| >= 1 <==> m.val.Str? && (LooksLikeEpc(m.val.s) || KeySuggestsEpc(m.key))
    ensures |hits| == 2 <==> m.val.Str? && LooksLikeEpc(m.val.s) && KeySuggestsEpc(m.key)
  {
    (if m.val.Str? && LooksLikeEpc(m.val.s) then [m.val.s] else [])
    + (if KeySuggestsEpc(m.key) && m.val.Str? then [m.val.s] else [])
  }

  /**
   * `searchForEpc(v, io, depth)`: the strings it hands to `processEpcHex`, in order. Array
   * elements are visited only when they are objects or arrays; object members are visited in
   * key order, each reporting its own hits before the walk descends into it.
   */
  function Search(v: Value, depth: nat): (r: seq<string>)
    ensures depth > MaxDepth ==> r == []
    ensures !IsObjectLike(v) ==> r == []
    decreases v
  {
    if depth > MaxDepth then []
    else match v
      case Arr(items) => SearchItems(items, depth)
      case Obj(ms) => SearchMembers(ms, depth)
      case _ => []
  }

  /** The `forEach` over an array's elements at `depth`. */
  function SearchItems(items: seq<Value>, depth: nat): (r: seq<string>)
    ensures depth >= MaxDepth ==> r == []
    decreases items
  {
    if items == [] then []
    else (if IsObjectLike(items[0]) then Search(items[0], depth + 1) else []) + SearchItems(items[1..], depth)
  }

  /** The `for…in` over an object's members at `depth`. */
  function SearchMembers(ms: seq<Member>, depth: nat): (r: seq<string>)
    ensures ms != [] ==> |MemberHits(ms[0])| <= |r| && r[..|MemberHits(ms[0])|] == MemberHits(ms[0])
    decreases ms
  {
    if ms == [] then []
    else
      var nested := if IsObjectLike(ms[0].val) then Search(ms[0].val, depth + 1) else [];
      MemberHits(ms[0]) + nested + SearchMembers(ms[1..], depth)
  }

  /** `s` is a string somewhere inside `v`. */
  predicate Occurs(s: string, v: Value)
    decreases v
  {
    match v
    case Str(t) => t == s
    case Arr(items) => exists i :: 0 <= i < |items| && Occurs(s, items[i])
    case Obj(ms) => exists i :: 0 <= i < |ms| && Occurs(s, ms[i].val)
    case _ => false
  }

  /** Members are visited in order: the walk over a concatenation is the concatenation of the walks. */
  lemma {:induction false} SearchMembersAppend(a: seq<Member>, b: seq<Member>, depth: nat)
    ensures SearchMembers(a + b, depth) == SearchMembers(a, depth) + SearchMembers(b, depth)
    decreases |a|
  {
    if a == [] {
      assert a + b == b;
    } else {
      assert (a + b)[0] == a[0];
      assert (a + b)[1..] == a[1..] + b;
      SearchMembersAppend(a[1..], b, depth);
    }
  }

  /** Everything the walk reports is a string found inside the value: numbers, booleans and nulls never are. */
  lemma {:induction false} SearchSound(v: Value, depth: nat, s: string)
    requires s in Search(v, depth)
    ensures Occurs(s, v)
    decreases v
  {
    match v
    case Arr(items) => SearchItemsSound(items, depth, s);
    case Obj(ms) => SearchMembersSound(ms, depth, s);
  }

  lemma {:induction false} SearchItemsSound(items: seq<Value>, depth: nat, s: string)
    requires s in SearchItems(items, depth)
    ensures exists i :: 0 <= i < |items| && Occurs(s, items[i])
    decreases items
  {
    if IsObjectLike(items[0]) && s in Search(items[0], depth + 1) {
      SearchSound(items[0], depth + 1, s);
    } else {
      SearchItemsSound(items[1..], depth, s);
      var i :| 0 <= i < |items[1..]| && Occurs(s, items[1..][i]);
      assert items[1..][i] == items[i + 1];
    }
  }

  lemma {:induction false} SearchMembersSound(ms: seq<Member>, depth: nat, s: string)
    requires s in SearchMembers(ms, depth)
    ensures exists i :: 0 <= i < |ms| && Occurs(s, ms[i].val)
    decreases ms
  {
    var hits := MemberHits(ms[0]);
    var nested := if IsObjectLike(ms[0].val) then Search(ms[0].val, depth + 1) else [];
    assert SearchMembers(ms, depth) == hits + nested + SearchMembers(ms[1..], depth);
    if s in hits {
      var j :| 0 <= j < |hits| && hits[j] == s;
      assert Occurs(s, ms[0].val);
    } else if s in nested {
      SearchSound(ms[0].val, depth + 1, s);
    } else {
      SearchMembersSound(ms[1..], depth, s);
      var i :| 0 <= i < |ms[1..]| && Occurs(s, ms[1..][i].val);
      assert ms[1..][i] == ms[i + 1];
    }
  }

  /** An array whose elements are all strings, numbers, booleans or nulls reports nothing. */
  lemma {:induction false} FlatArraySilent(items: seq<Value>, depth: nat)
    requires forall i :: 0 <= i < |items| ==> !IsObjectLike(items[i])
    ensures Search(Arr(items), depth) == []
    decreases |items|
  {
    if depth <= MaxDepth && items != [] {
      FlatArraySilent(items[1..], depth);
    }
  }

  /** What an own property of an object reports is among what the walk over the object reports. */
  lemma HitsReported(ms: seq<Member>, i: nat, depth: nat, s: string)
    requires i < |ms| && depth <= MaxDepth && s in MemberHits(ms[i])
    ensures s in Search(Obj(ms), depth)
  {
    var m := ms[i];
    assert ms == ms[..i] + [m] + ms[i + 1..];
    SearchMembersAppend(ms[..i] + [m], ms[i + 1..], depth);
    SearchMembersAppend(ms[..i], [m], depth);
    assert [m][1..] == [];
  }

  /** Every own string property whose key suggests an identifier is reported, at any depth up to the limit. */
  lemma KeyedStringReported(ms: seq<Member>, i: nat, depth: nat)
    requires i < |ms| && depth <= MaxDepth
    requires KeySuggestsEpc(ms[i].key) && ms[i].val.Str?
    ensures ms[i].val.s in Search(Obj(ms), depth)
  {
    assert ms[i].val.s in MemberHits(ms[i]);
    HitsReported(ms, i, depth, ms[i].val.s);
  }

  /** Every own hex string of eight or more characters is reported whatever its key, at any depth up to the limit. */
  lemma HexStringReported(ms: seq<Member>, i: nat, depth: nat)
    requires i < |ms| && depth <= MaxDepth
    requires ms[i].val.Str? && LooksLikeEpc(ms[i].val.s)
    ensures ms[i].val.s in Search(Obj(ms), depth)
  {
    assert ms[i].val.s in MemberHits(ms[i]);
    HitsReported(ms, i, depth, ms[i].val.s);
  }

  /** `v` wrapped `n` times as the only member of an object under a neutral key. */
  function Nest(v: Value, n: nat): Value {
    if n == 0 then v else Obj([Member("data", Nest(v, n - 1))])
  }

  lemma NeutralKey()
    ensures !KeySuggestsEpc("data")
  {
    ToLowerSpec("data");
    assert ToLower("data") == "data";
    MissingCharNotContained("data", "epc", 0);
    MissingCharNotContained("data", "tag", 2);
    MissingCharNotContained("data", "rfid", 0);
    MissingCharNotContained("data", "tid", 1);
  }

  /** Each wrapping level costs one unit of depth. */
  lemma {:induction false} NestDepth(v: Value, n: nat, depth: nat)
    requires IsObjectLike(v) && depth + n <= MaxDepth + 1
    ensures Search(Nest(v, n), depth) == Search(v, depth + n)
    decreases n
  {
    if n > 0 {
      var inner := Nest(v, n - 1);
      NestDepth(v, n - 1, depth + 1);
      assert IsObjectLike(inner) by {
        if n - 1 > 0 {
        }
      }
      NestStep(inner, depth);
    }
  }

  /** One wrapping level under the neutral key: the walk goes one level deeper and reports nothing of its own. */
  lemma NestStep(inner: Value, depth: nat)
    requires IsObjectLike(inner) && depth <= MaxDepth
    ensures Search(Obj([Member("data", inner)]), depth) == Search(inner, depth + 1)
  {
    NeutralKey();
    var ms := [Member("data", inner)];
    assert SearchMembers(ms, depth) == MemberHits(ms[0]) + Search(inner, depth + 1) + SearchMembers(ms[1..], depth);
    assert ms[1..] == [];
  }

  /** A keyed string eight levels down is still reported; one level further it is lost. */
  lemma DepthLimit(s: string)
    ensures var o := Obj([Member("tid", Str(s))]);
      && s in Search(Nest(o, MaxDepth), 0)
      && Search(Nest(o, MaxDepth + 1), 0) == []
  {
    var o := Obj([Member("tid", Str(s))]);
    NestDepth(o, MaxDepth, 0);
    NestDepth(o, MaxDepth + 1, 0);
    ToLowerSpec("tid");
    assert ToLower("tid") == "tid";
    assert Contains("tid", "tid");
    KeyedStringReported([Member("tid", Str(s))], 0, MaxDepth);
  }

  /** A hex identifier under a key like `epcHex` is reported twice, once per test. */
  lemma EpcHexReportedTwice(key: string, s: string)
    requires StartsWith(ToLower(key), "epc") && LooksLikeEpc(s)
    ensures Search(Obj([Member(key, Str(s))]), 0) == [s, s]
  {
    var ms := [Member(key, Str(s))];
    assert Contains(ToLower(key), "epc");
    assert SearchMembers(ms, 0) == MemberHits(ms[0]) + SearchMembers(ms[1..], 0);
    assert ms[1..] == [];
  }

  // ---------------------------------------------------------------------------------------
  // processEpcHex

  /** The resolver `processEpcHex` consults: the identifier table, the mode and the template. */
  datatype Catalogue = Catalogue(mapa: map<string, Record>, permisivo: bool, plantilla: Record)

  /** The catalogue as shipped, over whatever the table currently holds. */
  function Shipped(mapa: map<string, Record>): Catalogue {
    Catalogue(mapa, ModoPermisivo, DatosGenericos)
  }

  /** A record's descriptive fields, in declaration order. */
  function RecordHead(r: Record): seq<Member> {
    [ Member("claveProducto", Str(r.claveProducto)),
      Member("nombreProducto", Str(r.nombreProducto)),
      Member("pesoBruto", Num(r.pesoBruto as real)),
      Member("pesoNeto", Num(r.pesoNeto as real)),
      Member("piezas", Num(r.piezas as real)),
      Member("orden", Str(r.orden)),
      Member("claveUnidad", Str(r.claveUnidad)),
      Member("trazabilidad", Str(r.trazabilidad))]
  }

  /** A record as a JSON object; a fabricated record carries `rfidOriginal` last. */
  function RecordMembers(r: Record): seq<Member> {
    RecordHead(r) + [Member("rfid", Str(r.rfid))]
    + (if r.rfidOriginal.Some? then [Member("rfidOriginal", Str(r.rfidOriginal.value))] else [])
  }

  /** `{rfid: epcHex, ...info}` */
  function Detected(epc: string, info: Record): Value {
    Obj(Spread([Member("rfid", Str(epc))], RecordMembers(info)))
  }

  function TagDetected(epc: Value): Value {
    Obj([Member("epc", epc), Member("valid", Bool(true))])
  }

  function InventoryRead(epc: Value): Value {
    Obj([Member("type", Str("epc_read")), Member("epc", epc), Member("valid", Bool(true))])
  }

  function NotIdentified(epc: Value): Value {
    Obj([Member("epc", epc)])
  }

  /** The catch-all report when resolution and its fallback both throw. */
  function Unprocessed(epc: Value): Value {
    Obj([Member("rfid", epc), Member("nombreProducto", Str("Producto sin procesar"))])
  }

  /**
   * `processEpcHex`: a string is announced twice (`rfidTagDetected`, then the reader1
   * inventory channel) and then reported as recognised (`epcDetectado`, with the record) or
   * not (`epcNoIdentificado`). A non-string value is never in the table; in permissive mode
   * building the fabricated key (`substring`) throws, the fallback throws for the same reason,
   * and only the catch-all `epcDetectado` goes out. A value whose conversion to a string
   * throws fails already in the log line before the `try`: nothing is emitted and the
   * `TypeError` reaches the caller.
   */
  function ProcessEpcHex(cat: Catalogue, epc: Value): (r: Result<seq<Event>, Exception>)
    ensures r.Failure? <==> ConversionThrows(epc)
    ensures r.Failure? ==> r.error == Exception("TypeError", ConversionMessage)
    ensures r.Success? ==> forall i :: 0 <= i < |r.value| ==> r.value[i].Socket?
    ensures epc.Str? ==> r.Success? && |r.value| == 3
    ensures epc.Str? ==>
      && r.value[0] == Socket("rfidTagDetected", TagDetected(epc))
      && r.value[1] == Socket("readers/reader1/inventory", InventoryRead(epc))
      && (r.value[2].name == "epcDetectado" <==> epc.s in cat.mapa || cat.permisivo)
      && (r.value[2].name == "epcNoIdentificado" <==> epc.s !in cat.mapa && !cat.permisivo)
    ensures epc.Str? && epc.s in cat.mapa ==> r.value[2] == Socket("epcDetectado", Detected(epc.s, cat.mapa[epc.s]))
    ensures epc.Str? && epc.s !in cat.mapa && cat.permisivo ==>
      r.value[2] == Socket("epcDetectado", Detected(epc.s, cat.plantilla.(claveProducto := AutoClave(epc.s), rfid := epc.s, rfidOriginal := Some(epc.s))))
    ensures epc.Str? && epc.s !in cat.mapa && !cat.permisivo ==> r.value[2] == Socket("epcNoIdentificado", NotIdentified(epc))
    ensures !epc.Str? && !ConversionThrows(epc) && cat.permisivo ==> r == Success([Socket("epcDetectado", Unprocessed(epc))])
    ensures !epc.Str? && !ConversionThrows(epc) && !cat.permisivo ==>
      r == Success([Socket("rfidTagDetected", TagDetected(epc)), Socket("readers/reader1/inventory", InventoryRead(epc)), Socket("epcNoIdentificado", NotIdentified(epc))])
  {
    if ConversionThrows(epc) then
      Failure(Exception("TypeError", ConversionMessage))
    else if epc.Str? then
      var res := ProcesarEpc(cat.mapa, cat.permisivo, cat.plantilla, epc.s);
      Success([ Socket("rfidTagDetected", TagDetected(epc)),
                Socket("readers/reader1/inventory", InventoryRead(epc)),
                if res.valido then Socket("epcDetectado", Detected(epc.s, res.info.value))
                else Socket("epcNoIdentificado", NotIdentified(epc))])
    else if cat.permisivo then
      Success([Socket("epcDetectado", Unprocessed(epc))])
    else
      Success([ Socket("rfidTagDetected", TagDetected(epc)),
                Socket("readers/reader1/inventory", InventoryRead(epc)),
                Socket("epcNoIdentificado", NotIdentified(epc))])
  }

  lemma RecordRfid(r: Record)
    ensures HasKey(RecordMembers(r), "rfid") && GetLast(RecordMembers(r), "rfid") == Some(Str(r.rfid))
  {
    var head := RecordHead(r) + [Member("rfid", Str(r.rfid))];
    var tail := if r.rfidOriginal.Some? then [Member("rfidOriginal", Str(r.rfidOriginal.value))] else [];
    HasKeyIndex(tail, "rfid");
    assert !HasKey(tail, "rfid") by {
      if tail != [] {
        assert |tail[0].key| != |"rfid"|;
      }
    }
    GetLastAppend(head, tail, "rfid");
    GetLastAppend(RecordHead(r), [Member("rfid", Str(r.rfid))], "rfid");
    assert HasKey(head, "rfid") by {
      HasKeyIndex(head, "rfid");
      assert head[8].key == "rfid";
    }
    assert HasKey(RecordMembers(r), "rfid") by {
      HasKeyIndex(RecordMembers(r), "rfid");
      assert RecordMembers(r)[8].key == "rfid";
    }
  }

  /**
   * A recognised identifier is reported with the record's own `rfid`: the record's fields are
   * spread after the observed string and overwrite it.
   */
  lemma DetectedReportsRecordRfid(epc: string, info: Record)
    ensures Prop(Detected(epc, info), "rfid") == Some(Str(info.rfid))
  {
    RecordRfid(info);
    SpreadGet([Member("rfid", Str(epc))], RecordMembers(info), "rfid");
  }

  /** In the shipped catalogue, the stripped form of the first identifier is reported under the full identifier. */
  lemma SeedReportsCanonicalRfid(c: seq<Record>)
    requires c == Seed
    ensures var evs := ProcessEpcHex(Shipped(TableOf(c)), Str(c[0].rfid[3..])).value;
      && evs[2].name == "epcDetectado"
      && Prop(evs[2].payload, "rfid") == Some(Str(c[0].rfid))
      && c[0].rfid != c[0].rfid[3..]
  {
    SeedPadded(c);
    SeedOwners(c, 0, c[0].rfid[3..]);
    DetectedReportsRecordRfid(c[0].rfid[3..], c[0]);
  }

  /** Every candidate the walk finds goes through `processEpcHex`, in order. */
  function Report(cat: Catalogue, cands: seq<string>): (evs: seq<Event>)
    ensures |evs| == 3 * |cands|
    ensures forall i :: 0 <= i < |evs| ==> evs[i].Socket?
  {
    if cands == [] then [] else ProcessEpcHex(cat, Str(cands[0])).value + Report(cat, cands[1..])
  }

  // ---------------------------------------------------------------------------------------
  // processInventoryMessage

  /** `v[k1][k2]`, undefined when `v[k1]` is. */
  function Prop2(v: Value, k1: string, k2: string): Option<Value> {
    match Prop(v, k1)
    case None => None
    case Some(inner) => Prop(inner, k2)
  }

  predicate Prop2Truthy(v: Value, k1: string, k2: string) {
    var p := Prop2(v, k1, k2);
    p.Some? && Truthy(p.value)
  }

  /** The standard reader shape: `eventType === 'tagInventory'` with a truthy `tagInventoryEvent.epcHex`. */
  predicate StandardShape(data: Value) {
    Prop(data, "eventType") == Some(Str("tagInventory")) && Prop2Truthy(data, "tagInventoryEvent", "epcHex")
  }

  /** A top-level truthy string `epcHex`. */
  predicate DirectShape(data: Value) {
    PropTruthy(data, "epcHex") && Prop(data, "epcHex").value.Str?
  }

  /**
   * `processInventoryMessage`: the first shape that matches decides, in the order standard,
   * direct, `tagEvent.epcHex`; a payload of none of them is walked. Only the standard and
   * `tagEvent` shapes can hand over a value whose conversion throws; the walk hands over
   * strings only.
   */
  function ProcessInventory(cat: Catalogue, data: Value): (r: Result<seq<Event>, Exception>)
    ensures r.Success? ==> forall i :: 0 <= i < |r.value| ==> r.value[i].Socket?
    ensures r.Failure? ==> r.error == Exception("TypeError", ConversionMessage)
    ensures r.Failure? <==>
      || (StandardShape(data) && ConversionThrows(Prop2(data, "tagInventoryEvent", "epcHex").value))
      || (!StandardShape(data) && !DirectShape(data) && Prop2Truthy(data, "tagEvent", "epcHex")
          && ConversionThrows(Prop2(data, "tagEvent", "epcHex").value))
  {
    if StandardShape(data) then ProcessEpcHex(cat, Prop2(data, "tagInventoryEvent", "epcHex").value)
    else if DirectShape(data) then ProcessEpcHex(cat, Prop(data, "epcHex").value)
    else if Prop2Truthy(data, "tagEvent", "epcHex") then ProcessEpcHex(cat, Prop2(data, "tagEvent", "epcHex").value)
    else Success(Report(cat, Search(data, 0)))
  }

  /** The object the handler builds around an identifier found in an alternative shape. */
  function Synthesised(epcHex: Value): Value {
    Obj([Member("eventType", Str("tagInventory")), Member("tagInventoryEvent", Obj([Member("epcHex", epcHex)]))])
  }

  /** The rebuilt object always takes the standard branch, so the identifier goes straight to `processEpcHex`. */
  lemma SynthesisedIsStandard(cat: Catalogue, epcHex: Value)
    requires Truthy(epcHex)
    ensures ProcessInventory(cat, Synthesised(epcHex)) == ProcessEpcHex(cat, epcHex)
  {
    var ms := Synthesised(epcHex).members;
    assert Get(ms, "eventType") == Some(Str("tagInventory"));
    assert "eventType"[0] != "tagInventoryEvent"[1];
    assert Get(ms, "tagInventoryEvent") == Some(Obj([Member("epcHex", epcHex)]));
  }

  /** A payload of the standard shape is reported through its nested identifier whatever else it carries. */
  lemma StandardShapeWins(cat: Catalogue, data: Value)
    requires StandardShape(data)
    ensures ProcessInventory(cat, data) == ProcessEpcHex(cat, Prop2(data, "tagInventoryEvent", "epcHex").value)
  {
  }

  /**
   * A payload carrying both a top-level `epcHex` and a `tagEvent.epcHex` is reported through
   * the top-level one only, whichever order the two properties come in.
   */
  lemma DirectBeforeTagEvent(cat: Catalogue, a: string, b: string)
    requires a != ""
    ensures var data := Obj([Member("tagEvent", Obj([Member("epcHex", Str(b))])), Member("epcHex", Str(a))]);
      ProcessInventory(cat, data) == ProcessEpcHex(cat, Str(a))
  {
    var ms := [Member("tagEvent", Obj([Member("epcHex", Str(b))])), Member("epcHex", Str(a))];
    assert "tagEvent"[0] != "eventType"[0] && "epcHex"[1] != "eventType"[1];
    assert Get(ms, "eventType") == None;
    assert "tagEvent"[0] != "epcHex"[0];
    assert Get(ms, "epcHex") == Some(Str(a));
  }

  /** A payload with none of `eventType`, `epcHex` and `tagEvent` is handed to the walk. */
  lemma ShapelessWalked(cat: Catalogue, data: Value)
    requires Prop(data, "eventType").None? && Prop(data, "epcHex").None? && Prop(data, "tagEvent").None?
    ensures ProcessInventory(cat, data) == Success(Report(cat, Search(data, 0)))
  {
    assert !StandardShape(data);
    assert !Prop2Truthy(data, "tagEvent", "epcHex");
  }

  /** A number under `epcHex` is not the direct shape: the payload is walked, and the walk ignores numbers. */
  lemma NumericEpcHexWalked(cat: Catalogue, n: real)
    requires n != 0.0
    ensures ProcessInventory(cat, Obj([Member("epcHex", Num(n))])) == Success([])
  {
    var ms := [Member("epcHex", Num(n))];
    assert Get(ms, "eventType") == None;
    assert Get(ms, "tagEvent") == None;
    assert SearchMembers(ms, 0) == MemberHits(ms[0]) + SearchMembers(ms[1..], 0);
    assert ms[1..] == [];
  }

  // ---------------------------------------------------------------------------------------
  // Envelopes

  /** `mqttConfig.clientId`, the backend's own id on the bus. */
  const BackendClientId: string := "express-backend-luis"

  /** `client.publish(getTopic(t, lectorId), JSON.stringify(message))`, or nothing without a client. */
  function Publish(client: bool, t: TopicType, lectorId: string, message: seq<Member>): (evs: seq<Event>)
    ensures |evs| == (if client then 1 else 0)
    ensures forall i :: 0 <= i < |evs| ==> evs[i].Bus? && evs[i].payload == Obj(message)
    ensures client && '$' !in lectorId ==> evs[0].topic == "readers/" + lectorId + Suffix(t)
  {
    if client then [Bus(TopicFor(t, lectorId), Obj(message))] else []
  }

  /** `publishBackendStatus` */
  function PublishBackendStatus(client: bool, lectorId: string, status: string): (evs: seq<Event>)
    ensures |evs| == (if client then 1 else 0)
    ensures client ==> Prop(evs[0].payload, "type") == Some(Str("backend_status"))
    ensures client && '$' !in lectorId ==> evs[0].Bus? && evs[0].topic == "readers/" + lectorId + "/status"
  {
    Publish(client, Status, lectorId,
      [Member("type", Str("backend_status")), Member("status", Str(status)), Member("backendId", Str(BackendClientId))])
  }

  /** `publishError` */
  function PublishError(client: bool, lectorId: string, errorType: string, errorMessage: string): (evs: seq<Event>)
    ensures |evs| == (if client then 1 else 0)
    ensures forall i :: 0 <= i < |evs| ==> evs[i].Bus? && Prop(evs[i].payload, "type") == Some(Str(errorType))
    ensures client && '$' !in lectorId ==> evs[0].Bus? && evs[0].topic == "readers/" + lectorId + "/errors"
  {
    Publish(client, Errors, lectorId, [Member("type", Str(errorType)), Member("message", Str(errorMessage))])
  }

  /** `publishInventoryEvent`; `additionalInfo` defaults to `{}` and is spread last. */
  function PublishInventoryEvent(client: bool, lectorId: string, epc: Value, isValid: Value, additionalInfo: seq<Member>): (evs: seq<Event>)
    ensures |evs| == (if client then 1 else 0)
    ensures client && !HasKey(additionalInfo, "type") ==> Prop(evs[0].payload, "type") == Some(Str("epc_read"))
    ensures client && '$' !in lectorId ==> evs[0].Bus? && evs[0].topic == "readers/" + lectorId + "/inventory"
  {
    var base := [Member("type", Str("epc_read")), Member("epc", epc), Member("valid", isValid)];
    SpreadGet(base, additionalInfo, "type");
    Publish(client, Inventory, lectorId, Spread(base, additionalInfo))
  }

  /** `publishGpoEvent` */
  function PublishGpoEvent(client: bool, lectorId: string, gpo: Value, state: Value): (evs: seq<Event>)
    ensures |evs| == (if client then 1 else 0)
    ensures client ==> Prop(evs[0].payload, "type") == Some(Str("gpo_state_change"))
    ensures client && '$' !in lectorId ==> evs[0].Bus? && evs[0].topic == "readers/" + lectorId + "/gpos/events"
  {
    Publish(client, Gpos, lectorId, [Member("type", Str("gpo_state_change")), Member("gpo", gpo), Member("state", state)])
  }

  /** `publishLectorStatus` */
  function PublishLectorStatus(client: bool, lectorId: string, status: Value): (evs: seq<Event>)
    ensures |evs| == (if client then 1 else 0)
    ensures client ==> Prop(evs[0].payload, "type") == Some(Str("reader_status"))
    ensures client && '$' !in lectorId ==> evs[0].Bus? && evs[0].topic == "readers/" + lectorId + "/status"
  {
    Publish(client, Status, lectorId, [Member("type", Str("reader_status")), Member("status", status)])
  }

  /** `publishOperation`; `details` defaults to `{}` and is spread last. */
  function PublishOperation(client: bool, lectorId: string, operation: string, details: seq<Member>): (evs: seq<Event>)
    ensures |evs| == (if client then 1 else 0)
    ensures client && !HasKey(details, "type") ==> Prop(evs[0].payload, "type") == Some(Str(operation))
    ensures client && '$' !in lectorId ==> evs[0].Bus? && evs[0].topic == "readers/" + lectorId + "/operations"
  {
    SpreadGet([Member("type", Str(operation))], details, "type");
    Publish(client, Operations, lectorId, Spread([Member("type", Str(operation))], details))
  }

  /**
   * Without a client nothing is published; with one, exactly one message goes to the
   * reader's topic of that type, and the reader is recovered from the topic.
   */
  lemma PublishedToReader(client: bool, t: TopicType, lectorId: string, message: seq<Member>)
    requires '/' !in lectorId && '$' !in lectorId
    ensures !client ==> Publish(client, t, lectorId, message) == []
    ensures client ==> Publish(client, t, lectorId, message) == [Bus("readers/" + lectorId + Suffix(t), Obj(message))]
    ensures client ==> ExtractLectorId(Publish(client, t, lectorId, message)[0].topic) == Some(lectorId)
  {
    TopicRoundTrip(t, lectorId);
  }

  /** Caller-supplied details override the operation's `type`; every other key reads as supplied. */
  lemma OperationDetailsOverride(lectorId: string, operation: string, details: seq<Member>, k: string)
    ensures var payload := PublishOperation(true, lectorId, operation, details)[0].payload;
      && Prop(payload, k) == (if HasKey(details, k) then GetLast(details, k) else Get([Member("type", Str(operation))], k))
  {
    SpreadGet([Member("type", Str(operation))], details, k);
  }

  /** A `valid` in `additionalInfo` overrides the validity argument. */
  lemma InventoryInfoOverridesValid(lectorId: string, epc: Value, isValid: Value, additionalInfo: seq<Member>)
    requires HasKey(additionalInfo, "valid")
    ensures Prop(PublishInventoryEvent(true, lectorId, epc, isValid, additionalInfo)[0].payload, "valid")
         == GetLast(additionalInfo, "valid")
  {
    SpreadGet([Member("type", Str("epc_read")), Member("epc", epc), Member("valid", isValid)], additionalInfo, "valid");
  }

  // ---------------------------------------------------------------------------------------
  // The message handler

  /** Topics whose payloads go straight to the walk. */
  predicate TagTopic(topic: string) {
    || topic == "impinj/tag" || topic == "impinj/inventory" || topic == "impinj/reads"
    || Contains(topic, "tag") || Contains(topic, "inventory")
  }

  /** What a payload that is not JSON becomes. */
  function RawMessage(text: string): Value {
    Obj([Member("rawMessage", Str(text))])
  }

  /** The message of the `TypeError` raised by reading `eventType` of a `null` payload. */
  const NullEventTypeMessage: string := "Cannot read properties of null (reading 'eventType')"

  /** The handler's `catch`: the error is published only when the topic names a reader (a non-empty one). */
  function HandlerError(client: bool, topic: string, message: string): (evs: seq<Event>)
    ensures |evs| <= 1
    ensures forall i :: 0 <= i < |evs| ==> evs[i].Bus? && Prop(evs[i].payload, "type") == Some(Str("message_processing_error"))
    ensures |evs| == 1 <==> client && ExtractLectorId(topic).Some? && ExtractLectorId(topic).value != ""
  {
    match ExtractLectorId(topic)
    case Some(id) => if id != "" then PublishError(client, id, "message_processing_error", message) else []
    case None => []
  }

  /** What reaches the clients of a step that may throw: its events, or the handler's `catch`. */
  function Caught(client: bool, topic: string, r: Result<seq<Event>, Exception>): (evs: seq<Event>)
    ensures r.Success? ==> evs == r.value
    ensures r.Failure? ==> evs == HandlerError(client, topic, r.error.message)
  {
    match r
    case Success(evs) => evs
    case Failure(e) => HandlerError(client, topic, e.message)
  }

  /** The routing of a decoded payload, after the debug emit. */
  function Route(cat: Catalogue, client: bool, topic: string, data: Value): (evs: seq<Event>)
    ensures forall i :: 0 <= i < |evs| && evs[i].Bus? ==> Prop(evs[i].payload, "type") == Some(Str("message_processing_error"))
    ensures !client ==> forall i :: 0 <= i < |evs| ==> evs[i].Socket?
    ensures TagTopic(topic) ==> |evs| >= 1 && evs[0] == Socket("tag_data", Obj([Member("topic", Str(topic)), Member("data", data)]))
  {
    if TagTopic(topic) then
      [Socket("tag_data", Obj([Member("topic", Str(topic)), Member("data", data)]))]
      + (if IsObjectLike(data) then Report(cat, Search(data, 0)) else [])
    else if Contains(topic, "/inventory") then Caught(client, topic, ProcessInventory(cat, data))
    else if data.Null? then HandlerError(client, topic, NullEventTypeMessage)
    else if Prop(data, "eventType") == Some(Str("tagInventory")) || PropTruthy(data, "tagInventoryEvent") then
      Caught(client, topic, ProcessInventory(cat, data))
    else if PropTruthy(data, "epcHex") || Prop2Truthy(data, "tagEvent", "epcHex") then
      var epcHex := if PropTruthy(data, "epcHex") then Prop(data, "epcHex").value else Prop2(data, "tagEvent", "epcHex").value;
      Caught(client, topic, ProcessInventory(cat, Synthesised(epcHex)))
    else if Contains(topic, "/gpos/events") || Contains(topic, "/operations") then []
    else if IsObjectLike(data) then Report(cat, Search(data, 0))
    else []
  }

  /**
   * The `'message'` handler. `parsed` is what `JSON.parse` made of `text`, `None` when it
   * threw. The payload is echoed for debugging first, then routed.
   */
  function HandleMessage(cat: Catalogue, client: bool, topic: string, text: string, parsed: Option<Value>): (evs: seq<Event>)
    ensures |evs| >= 1 && evs[0].Socket?
    ensures evs[0].name == (if parsed.Some? then "mqtt_raw" else "mqtt_raw_text")
    ensures forall i :: 0 <= i < |evs| && evs[i].Bus? ==> Prop(evs[i].payload, "type") == Some(Str("message_processing_error"))
    ensures !client ==> forall i :: 0 <= i < |evs| ==> evs[i].Socket?
  {
    match parsed
    case Some(data) =>
      [Socket("mqtt_raw", Obj([Member("topic", Str(topic)), Member("data", data)]))] + Route(cat, client, topic, data)
    case None =>
      [Socket("mqtt_raw_text", Obj([Member("topic", Str(topic)), Member("text", Str(text))]))]
      + Route(cat, client, topic, RawMessage(text))
  }

  /** Every topic containing `/inventory` already contains `inventory`, so that branch is never taken. */
  lemma InventoryBranchUnreachable(topic: string)
    requires Contains(topic, "/inventory")
    ensures TagTopic(topic)
  {
    assert "/inventory" == "/" + "inventory";
    ContainsSuffixOfPattern(topic, "/", "inventory");
  }

  /** On a tag topic a hex identifier under `epcHex` is processed twice. */
  lemma TagTopicReportsTwice(cat: Catalogue, client: bool, topic: string, text: string, key: string, s: string)
    requires TagTopic(topic)
    requires StartsWith(ToLower(key), "epc") && LooksLikeEpc(s)
    ensures var data := Obj([Member(key, Str(s))]);
      HandleMessage(cat, client, topic, text, Some(data))
      == [ Socket("mqtt_raw", Obj([Member("topic", Str(topic)), Member("data", data)])),
           Socket("tag_data", Obj([Member("topic", Str(topic)), Member("data", data)]))]
         + ProcessEpcHex(cat, Str(s)).value + ProcessEpcHex(cat, Str(s)).value
  {
    EpcHexReportedTwice(key, s);
    assert Report(cat, [s, s]) == ProcessEpcHex(cat, Str(s)).value + ProcessEpcHex(cat, Str(s)).value by {
      assert [s, s][1..] == [s];
      assert [s][1..] == [];
    }
  }

  /** Elsewhere the same payload is recognised by shape and processed once. */
  lemma OtherTopicReportsOnce(cat: Catalogue, client: bool, topic: string, text: string, s: string)
    requires !TagTopic(topic) && s != ""
    ensures var data := Obj([Member("epcHex", Str(s))]);
      HandleMessage(cat, client, topic, text, Some(data))
      == [Socket("mqtt_raw", Obj([Member("topic", Str(topic)), Member("data", data)]))] + ProcessEpcHex(cat, Str(s)).value
  {
    var data := Obj([Member("epcHex", Str(s))]);
    if Contains(topic, "/inventory") {
      InventoryBranchUnreachable(topic);
    }
    assert Get(data.members, "eventType") == None;
    assert Get(data.members, "tagInventoryEvent") == None;
    SynthesisedIsStandard(cat, Str(s));
  }

  /**
   * A `null` payload outside the tag topics makes the handler read a property of `null`; the
   * error goes to the reader's error topic when the topic names a reader and a client exists.
   */
  lemma NullPayloadReported(cat: Catalogue, client: bool, topic: string, text: string)
    requires !TagTopic(topic)
    ensures HandleMessage(cat, client, topic, text, Some(Null))
         == [Socket("mqtt_raw", Obj([Member("topic", Str(topic)), Member("data", Null)]))]
            + HandlerError(client, topic, NullEventTypeMessage)
    ensures var evs := HandleMessage(cat, client, topic, text, Some(Null));
      |evs| == 2 <==> client && StartsWith(topic, "readers/") && ExtractLectorId(topic) != Some("")
  {
    if Contains(topic, "/inventory") {
      InventoryBranchUnreachable(topic);
    }
    ExtractLectorIdSpec(topic);
  }

  /**
   * An identifier whose conversion to a string throws (an object with a `toString` member, or
   * an array holding one) is recognised by shape, and the log line at the head of
   * `processEpcHex` throws before anything is reported: only the handler's error follows the echo.
   */
  lemma UnconvertibleIdentifierReported(cat: Catalogue, client: bool, topic: string, text: string, v: Value)
    requires !TagTopic(topic) && ConversionThrows(v)
    ensures var data := Obj([Member("epcHex", v)]);
      HandleMessage(cat, client, topic, text, Some(data))
      == [Socket("mqtt_raw", Obj([Member("topic", Str(topic)), Member("data", data)]))]
         + HandlerError(client, topic, ConversionMessage)
  {
    var data := Obj([Member("epcHex", v)]);
    if Contains(topic, "/inventory") {
      InventoryBranchUnreachable(topic);
    }
    assert Get(data.members, "eventType") == None;
    assert Get(data.members, "tagInventoryEvent") == None;
    assert PropTruthy(data, "epcHex") && Prop(data, "epcHex").value == v;
    SynthesisedIsStandard(cat, v);
    assert ProcessInventory(cat, Synthesised(v)) == Failure(Exception("TypeError", ConversionMessage));
    assert Route(cat, client, topic, data) == HandlerError(client, topic, ConversionMessage);
  }

  /**
   * On a reader's topic with a client, such an identifier leaves the echo and one
   * `message_processing_error` on that reader's error topic, and no `epcDetectado`.
   */
  lemma UnconvertibleIdentifierOnReaderTopic(cat: Catalogue, id: string, rest: string, text: string, v: Value)
    requires '/' !in id && '$' !in id && id != "" && (rest == [] || rest[0] == '/')
    requires !TagTopic("readers/" + id + rest) && ConversionThrows(v)
    ensures var evs := HandleMessage(cat, true, "readers/" + id + rest, text, Some(Obj([Member("epcHex", v)])));
      && |evs| == 2 && evs[0].name == "mqtt_raw"
      && evs[1].Bus? && evs[1].topic == "readers/" + id + "/errors"
      && Prop(evs[1].payload, "type") == Some(Str("message_processing_error"))
  {
    ExtractFromReaderTopic(id, rest);
    UnconvertibleIdentifierReported(cat, true, "readers/" + id + rest, text, v);
  }

  lemma RawMessageKeyNeutral()
    ensures !KeySuggestsEpc("rawMessage")
  {
    var lower := ToLower("rawMessage");
    RawMessageLower();
    MissingCharNotContained(lower, "epc", 1);
    MissingCharNotContained(lower, "tag", 0);
    MissingCharNotContained(lower, "rfid", 1);
    MissingCharNotContained(lower, "tid", 0);
  }

  /** The lower-cased wrapper key has no `p`, `t` or `f`. */
  lemma RawMessageLower()
    ensures 'p' !in ToLower("rawMessage") && 't' !in ToLower("rawMessage") && 'f' !in ToLower("rawMessage")
  {
    var key := "rawMessage";
    assert 'p' !in key && 'P' !in key && 't' !in key && 'T' !in key && 'f' !in key && 'F' !in key;
    LowerLacks(key, 'p');
    LowerLacks(key, 't');
    LowerLacks(key, 'f');
  }

  /** The wrapped text carries none of the inventory shapes. */
  lemma RawMessageProps(text: string)
    ensures var data := RawMessage(text);
      && Prop(data, "eventType") == None && Prop(data, "tagInventoryEvent") == None
      && Prop(data, "epcHex") == None && Prop(data, "tagEvent") == None
  {
    assert "rawMessage"[0] != "eventType"[0] && "rawMessage"[0] != "tagInventoryEvent"[0];
    assert "rawMessage"[0] != "epcHex"[0] && "rawMessage"[0] != "tagEvent"[0];
  }

  /** The walk over the wrapped text sees only the text itself. */
  lemma RawMessageWalk(text: string)
    ensures Search(RawMessage(text), 0) == (if LooksLikeEpc(text) then [text] else [])
  {
    var ms := RawMessage(text).members;
    RawMessageKeyNeutral();
    assert SearchMembers(ms, 0) == MemberHits(ms[0]) + SearchMembers(ms[1..], 0);
    assert ms[1..] == [];
  }

  /** On an ordinary topic the wrapped text matches no inventory shape and is walked. */
  lemma RawMessageRouted(cat: Catalogue, client: bool, topic: string, text: string)
    requires !TagTopic(topic) && !Contains(topic, "/gpos/events") && !Contains(topic, "/operations")
    ensures Route(cat, client, topic, RawMessage(text)) == Report(cat, Search(RawMessage(text), 0))
  {
    if Contains(topic, "/inventory") {
      InventoryBranchUnreachable(topic);
    }
    RawMessageProps(text);
  }

  /**
   * Text that is not JSON is wrapped as `{rawMessage: text}` and, on an ordinary topic, walked:
   * it is reported only when the whole text looks like an identifier.
   */
  lemma UnparsableTextWalked(cat: Catalogue, client: bool, topic: string, text: string)
    requires !TagTopic(topic) && !Contains(topic, "/gpos/events") && !Contains(topic, "/operations")
    ensures HandleMessage(cat, client, topic, text, None)
         == [Socket("mqtt_raw_text", Obj([Member("topic", Str(topic)), Member("text", Str(text))]))]
            + (if LooksLikeEpc(text) then ProcessEpcHex(cat, Str(text)).value else [])
  {
    RawMessageRouted(cat, client, topic, text);
    RawMessageWalk(text);
    if LooksLikeEpc(text) {
      assert Report(cat, [text]) == ProcessEpcHex(cat, Str(text)).value by {
        assert [text][1..] == [];
      }
    }
  }
}
