/** The per-waste-type sensors: the configured waste types, the bus-safe
    sensor identifier, the MQTT topics, the discovery payload, and the
    state and attributes messages of one update (`formatDate`,
    `getDaysUntil`, `publishDiscoveryConfig` and the loop body of
    `updateSensors`). */
module Sensors {
  import opened Wrappers
  import opened Text
  import opened Calendar
  import opened Instants
  import opened Resolver

  /** One entry of the waste-type table: its key (the upstream's `fraksjon`
      value), display name and icon. */
  datatype WasteType = WasteType(key: string, name: string, icon: string)

  /** The table, in its key order. */
  const WasteTypes: seq<WasteType> := [
    WasteType("Matavfall", "Matavfall", "mdi:food-apple"),
    WasteType("Papir", "Papir", "mdi:newspaper-variant"),
    WasteType("Restavfall", "Restavfall", "mdi:trash-can")
  ]

  /** State text of a sensor with no collection in the data. */
  const NoneScheduled: string := "Ingen planlagt"

  predicate IsAring(c: char) {
    c == 'å' || c == 'Å'
  }

  /** Position `i` of `name` holds its first a-ring, in either case. */
  ghost predicate IsFirstAring(name: string, i: int) {
    0 <= i < |name| && IsAring(name[i]) && forall j :: 0 <= j < i ==> !IsAring(name[j])
  }

  /** After lower-casing, the first `å` sits where the name's first a-ring
      of either case sat. */
  lemma FirstAringAfterLowering(name: string)
    ensures forall i :: 0 <= i < |name| ==> (i == IndexOf(ToLower(name), 'å') <==> IsFirstAring(name, i))
  {
    var lower := ToLower(name);
    var k := IndexOf(lower, 'å');
    forall i | 0 <= i < |name| ensures i == k <==> IsFirstAring(name, i) {
      if i == k {
        forall j | 0 <= j < i ensures !IsAring(name[j]) {
          assert lower[..k][j] == lower[j];
        }
      }
      if IsFirstAring(name, i) {
        assert lower[i] == 'å';
        assert lower[i] in lower;
        if k < i {
          assert IsAring(name[k]);
        }
      }
    }
  }

  /** `wasteType.toLowerCase().replace('å', 'a')`. */
  function SensorId(name: string): (id: string)
    ensures |id| == |name|
  {
    ReplaceFirst(ToLower(name), 'å', 'a')
  }

  /** The identifier is the name lower-cased, with its first a-ring (either
      case) written as `a` and any later one left as `å`; no upper-case
      letter remains. */
  lemma SensorIdCharacters(name: string)
    ensures forall i :: 0 <= i < |name| ==>
              SensorId(name)[i] == (if IsFirstAring(name, i) then 'a' else LowerChar(name[i]))
    ensures forall i :: 0 <= i < |name| ==> !IsUpper(SensorId(name)[i])
  {
    FirstAringAfterLowering(name);
  }

  /** A name without an a-ring is only lower-cased. */
  lemma SensorIdWithoutAring(name: string)
    requires 'å' !in name && 'Å' !in name
    ensures SensorId(name) == ToLower(name)
  {
    SensorIdCharacters(name);
    assert forall i :: 0 <= i < |name| ==> !IsAring(name[i]) by {
      forall i | 0 <= i < |name| ensures !IsAring(name[i]) {
        assert name[i] in name;
      }
    }
  }

  lemma LowerMatavfall() ensures ToLower("Matavfall") == "matavfall" {
    LowerEach("Matavfall", "matavfall");
  }

  lemma LowerPapir() ensures ToLower("Papir") == "papir" {
    LowerEach("Papir", "papir");
  }

  lemma LowerRestavfall() ensures ToLower("Restavfall") == "restavfall" {
    LowerEach("Restavfall", "restavfall");
  }

  lemma MatavfallSensorId() ensures SensorId("Matavfall") == "matavfall" {
    SensorIdWithoutAring("Matavfall");
    LowerMatavfall();
  }

  lemma PapirSensorId() ensures SensorId("Papir") == "papir" {
    SensorIdWithoutAring("Papir");
    LowerPapir();
  }

  lemma RestavfallSensorId() ensures SensorId("Restavfall") == "restavfall" {
    SensorIdWithoutAring("Restavfall");
    LowerRestavfall();
  }

  /** The configured waste types get the identifiers the bus topics use. */
  lemma ConfiguredSensorIds()
    ensures SensorId(WasteTypes[0].key) == "matavfall"
    ensures SensorId(WasteTypes[1].key) == "papir"
    ensures SensorId(WasteTypes[2].key) == "restavfall"
  {
    MatavfallSensorId();
    PapirSensorId();
    RestavfallSensorId();
  }

  /** Only the first a-ring is replaced; a later one stays. */
  lemma OnlyFirstAringReplaced()
    ensures SensorId("Åå") == "aå"
  {
    SensorIdCharacters("Åå");
    assert IsFirstAring("Åå", 0) && !IsFirstAring("Åå", 1);
  }

  const TopicBase: string := "homeassistant/sensor/tomming/"

  function DiscoveryTopic(id: string): string {
    TopicBase + id + "/config"
  }

  function StateTopic(id: string): string {
    TopicBase + id + "/state"
  }

  function AttributesTopic(id: string): string {
    TopicBase + id + "/attributes"
  }

  /** A topic names one sensor and one kind of message: topics of different
      kinds never coincide, and each kind determines the sensor identifier. */
  lemma TopicsIdentifySensor(a: string, b: string)
    ensures StateTopic(a) == StateTopic(b) <==> a == b
    ensures AttributesTopic(a) == AttributesTopic(b) <==> a == b
    ensures DiscoveryTopic(a) == DiscoveryTopic(b) <==> a == b
    ensures StateTopic(a) != AttributesTopic(b)
    ensures StateTopic(a) != DiscoveryTopic(b)
    ensures AttributesTopic(a) != DiscoveryTopic(b)
  {
    var n := |TopicBase|;
    if StateTopic(a) == StateTopic(b) {
      assert a == StateTopic(a)[n..n + |a|];
      assert b == StateTopic(b)[n..n + |b|];
    }
    if AttributesTopic(a) == AttributesTopic(b) {
      assert a == AttributesTopic(a)[n..n + |a|];
      assert b == AttributesTopic(b)[n..n + |b|];
    }
    if DiscoveryTopic(a) == DiscoveryTopic(b) {
      assert a == DiscoveryTopic(a)[n..n + |a|];
      assert b == DiscoveryTopic(b)[n..n + |b|];
    }
    var s, t, c := StateTopic(a), AttributesTopic(b), DiscoveryTopic(b);
    assert s[|s| - 1] == 'e' && t[|t| - 1] == 's' && c[|c| - 1] == 'g';
    var t', c' := AttributesTopic(a), StateTopic(b);
    assert t'[|t'| - 1] == 's' && c'[|c'| - 1] == 'e';
  }

  /** A JSON value as `JSON.stringify` receives it. */
  datatype Json =
    | JString(s: string)
    | JInt(n: int)
    | JNull
    | JArray(items: seq<Json>)
    | JObject(members: seq<(string, Json)>)

  /** The value of member `key` of an object, the first one if repeated. */
  function Member(j: Json, key: string): Option<Json> {
    if j.JObject? then Lookup(j.members, key) else None
  }

  function Lookup(members: seq<(string, Json)>, key: string): Option<Json> {
    if |members| == 0 then None
    else if members[0].0 == key then Some(members[0].1)
    else Lookup(members[1..], key)
  }

  lemma {:induction false} LookupAt(members: seq<(string, Json)>, i: int, key: string)
    requires 0 <= i < |members| && members[i].0 == key
    requires forall j :: 0 <= j < i ==> members[j].0 != key
    ensures Lookup(members, key) == Some(members[i].1)
    decreases i
  {
    if i > 0 {
      LookupAt(members[1..], i - 1, key);
    }
  }

  /** What an MQTT message carries: a plain string or a serialized object. */
  datatype Payload = PlainText(text: string) | JsonText(doc: Json)

  datatype Message = Message(topic: string, payload: Payload, retain: bool)

  /** The device every sensor is grouped under. */
  const DeviceConfig: Json := JObject([
    ("identifiers", JArray([JString("renovasjon_tomming")])),
    ("name", JString("Tømming")),
    ("manufacturer", JString("Time Kommune")),
    ("model", JString("Renovasjon"))
  ])

  function DiscoveryPayload(wt: WasteType): Json {
    DiscoveryObject(wt.name, SensorId(wt.key), wt.icon)
  }

  /** The discovery object of the sensor `id`. */
  function DiscoveryObject(name: string, id: string, icon: string): Json {
    JObject([
      ("name", JString(name)),
      ("unique_id", JString("renovasjon_" + id)),
      ("state_topic", JString(StateTopic(id))),
      ("json_attributes_topic", JString(AttributesTopic(id))),
      ("icon", JString(icon)),
      ("device", DeviceConfig)
    ])
  }

  /** The members of a discovery object a subscriber looks up. */
  lemma DiscoveryObjectMembers(name: string, id: string, icon: string)
    ensures var doc := DiscoveryObject(name, id, icon);
            && Member(doc, "name") == Some(JString(name))
            && Member(doc, "unique_id") == Some(JString("renovasjon_" + id))
            && Member(doc, "state_topic") == Some(JString(StateTopic(id)))
            && Member(doc, "json_attributes_topic") == Some(JString(AttributesTopic(id)))
            && Member(doc, "icon") == Some(JString(icon))
            && Member(doc, "device") == Some(DeviceConfig)
  {
    var ms := DiscoveryObject(name, id, icon).members;
    LookupAt(ms, 0, "name");
    LookupAt(ms, 1, "unique_id");
    LookupAt(ms, 2, "state_topic");
    LookupAt(ms, 3, "json_attributes_topic");
    LookupAt(ms, 4, "icon");
    LookupAt(ms, 5, "device");
  }

  /** The retained discovery message of one waste type. */
  function DiscoveryMessage(wt: WasteType): (m: Message)
    ensures m.retain
    ensures m.topic == DiscoveryTopic(SensorId(wt.key))
    ensures m.payload.JsonText?
    ensures Member(m.payload.doc, "name") == Some(JString(wt.name))
    ensures Member(m.payload.doc, "icon") == Some(JString(wt.icon))
    ensures Member(m.payload.doc, "unique_id") == Some(JString("renovasjon_" + SensorId(wt.key)))
    ensures Member(m.payload.doc, "state_topic") == Some(JString(StateTopic(SensorId(wt.key))))
    ensures Member(m.payload.doc, "json_attributes_topic") == Some(JString(AttributesTopic(SensorId(wt.key))))
    ensures Member(m.payload.doc, "device") == Some(DeviceConfig)
  {
    DiscoveryObjectMembers(wt.name, SensorId(wt.key), wt.icon);
    Message(DiscoveryTopic(SensorId(wt.key)), JsonText(DiscoveryPayload(wt)), true)
  }

  /** `publishDiscoveryConfig`: one discovery message per waste type, in
      table order. */
  function DiscoveryMessages(types: seq<WasteType>): (r: seq<Message>)
    ensures |r| == |types|
    ensures forall i :: 0 <= i < |types| ==> r[i] == DiscoveryMessage(types[i])
  {
    if |types| == 0 then [] else [DiscoveryMessage(types[0])] + DiscoveryMessages(types[1..])
  }

  /** `formatDate`: the sentinel for no date, otherwise the calendar-date
      part of the date's ISO text. The two cases can always be told apart,
      and the date text reads back as the date. */
  function FormatDate(next: Option<Instant>): (r: string)
    ensures r == NoneScheduled <==> next.None?
    ensures next.Some? ==> r == DateText(DateOf(next.value))
    ensures next.Some? ==> 'T' !in r && ParseDateText(r) == Some(DateOf(next.value))
  {
    match next
    case None => NoneScheduled
    case Some(t) =>
      IsoDatePart(t);
      DateTextRoundTrip(DateOf(t));
      SentinelIsNoDate();
      BeforeFirst(IsoString(t), 'T')
  }

  /** `toISOString().split('T')[0]` is the calendar-date text. */
  lemma IsoDatePart(t: Instant)
    ensures BeforeFirst(IsoString(t), 'T') == DateText(DateOf(t))
  {
    var date := DateText(DateOf(t));
    var rest := TimeText(t - StartOfDay(t)) + "Z";
    DateTextHasNoT(DateOf(t));
    BeforeFirstOfJoin(date, 'T', rest);
    assert IsoString(t) == date + ['T'] + rest;
  }

  lemma SentinelIsNoDate()
    ensures ParseDateText(NoneScheduled) == None
  {
    var n := |NoneScheduled|;
    assert NoneScheduled[n - 6] == 'a';
  }

  /** `getDaysUntil`: both ends moved to the start of their day, then the
      millisecond difference divided by a day and rounded up. It is the
      difference of the day numbers. */
  function DaysUntil(next: Option<Instant>, now: Instant): (r: Option<int>)
    ensures r.None? <==> next.None?
    ensures next.Some? ==> r == Some(Day(next.value) - Day(now))
  {
    match next
    case None => None
    case Some(d) => Some(CeilDiv(StartOfDay(d) - StartOfDay(now), MsPerDay))
  }

  /** Whatever the hour of either instant, the same day gives 0 and the next
      day gives 1. */
  lemma DaysUntilIgnoresTimeOfDay(d: Instant, now: Instant)
    ensures Day(d) == Day(now) ==> DaysUntil(Some(d), now) == Some(0)
    ensures Day(d) == Day(now) + 1 ==> DaysUntil(Some(d), now) == Some(1)
  {
  }

  /** What one pass of the update loop derives for a waste type before it
      publishes: the sensor identifier, the state text and the day count. */
  datatype Reading = Reading(key: string, id: string, formatted: string, daysUntil: Option<int>)

  /** The loop body of `updateSensors` up to the publishes. */
  function ReadingOf(wt: WasteType, data: seq<Record>, now: Instant): (r: Reading)
    ensures r.key == wt.key && r.id == SensorId(wt.key)
  {
    ReadingFor(wt, NextCollectionDate(data, wt.key, now), now)
  }

  /** The reading of a waste type whose next collection is `next`. */
  function ReadingFor(wt: WasteType, next: Option<Instant>, now: Instant): Reading {
    Reading(wt.key, SensorId(wt.key), FormatDate(next), DaysUntil(next, now))
  }

  /** The readings of all waste types, in table order. */
  function Readings(types: seq<WasteType>, data: seq<Record>, now: Instant): seq<Reading> {
    seq(|types|, i requires 0 <= i < |types| => ReadingOf(types[i], data, now))
  }

  /** The attributes object `{next_collection, days_until, waste_type}`;
      `days_until` is JSON null when there is no date. */
  function Attributes(r: Reading): Json {
    JObject([
      ("next_collection", JString(r.formatted)),
      ("days_until", if r.daysUntil.Some? then JInt(r.daysUntil.value) else JNull),
      ("waste_type", JString(r.key))
    ])
  }

  function StateMessage(r: Reading): Message {
    Message(StateTopic(r.id), PlainText(r.formatted), false)
  }

  /** The attributes message repeats the state text as `next_collection`,
      and carries the day count and the waste type's key. */
  function AttributesMessage(r: Reading): (m: Message)
    ensures !m.retain && m.topic == AttributesTopic(r.id) && m.payload.JsonText?
    ensures Member(m.payload.doc, "next_collection") == Some(JString(StateMessage(r).payload.text))
    ensures Member(m.payload.doc, "days_until") == Some(if r.daysUntil.Some? then JInt(r.daysUntil.value) else JNull)
    ensures Member(m.payload.doc, "waste_type") == Some(JString(r.key))
  {
    var ms := Attributes(r).members;
    LookupAt(ms, 0, "next_collection");
    LookupAt(ms, 1, "days_until");
    LookupAt(ms, 2, "waste_type");
    Message(AttributesTopic(r.id), JsonText(Attributes(r)), false)
  }

  /** The publishes of the update loop: per reading, in order, its state
      message and then its attributes message. */
  function SensorMessages(readings: seq<Reading>): (r: seq<Message>)
    ensures |r| == 2 * |readings|
  {
    if |readings| == 0 then []
    else [StateMessage(readings[0]), AttributesMessage(readings[0])] + SensorMessages(readings[1..])
  }

  /** Message `2i` of an update is the state of reading `i` and message
      `2i+1` its attributes; none is retained. */
  lemma {:induction false} SensorMessagesInOrder(readings: seq<Reading>)
    ensures forall i :: 0 <= i < |readings| ==>
              SensorMessages(readings)[2 * i] == StateMessage(readings[i])
              && SensorMessages(readings)[2 * i + 1] == AttributesMessage(readings[i])
    ensures forall k :: 0 <= k < 2 * |readings| ==> !SensorMessages(readings)[k].retain
  {
    if |readings| > 0 {
      var rest := SensorMessages(readings[1..]);
      var r := SensorMessages(readings);
      SensorMessagesInOrder(readings[1..]);
      forall i | 1 <= i < |readings|
        ensures r[2 * i] == StateMessage(readings[i])
        ensures r[2 * i + 1] == AttributesMessage(readings[i])
      {
        assert r[2 * i] == rest[2 * (i - 1)];
        assert r[2 * i + 1] == rest[2 * (i - 1) + 1];
        assert readings[1..][i - 1] == readings[i];
      }
      forall k | 2 <= k < 2 * |readings| ensures !r[k].retain {
        assert r[k] == rest[k - 2];
      }
    }
  }

  /** A sensor shows the sentinel exactly when its type has no upcoming
      collection, and then its day count is null. */
  lemma SensorShowsSentinelWithoutDate(wt: WasteType, data: seq<Record>, now: Instant)
    ensures ReadingOf(wt, data, now).formatted == NoneScheduled
            <==> forall d :: !IsUpcoming(data, wt.key, now, d)
    ensures ReadingOf(wt, data, now).formatted == NoneScheduled
            <==> ReadingOf(wt, data, now).daysUntil.None?
  {
    var next := NextCollectionDate(data, wt.key, now);
    assert ReadingOf(wt, data, now).formatted == FormatDate(next);
    assert ReadingOf(wt, data, now).daysUntil == DaysUntil(next, now);
    NextCollectionDateIsEarliest(data, wt.key, now);
  }

  /** Otherwise a sensor shows the earliest upcoming date, which lies zero
      or more days ahead. */
  lemma SensorReportsEarliest(wt: WasteType, data: seq<Record>, now: Instant, d: Instant)
    requires IsEarliestUpcoming(data, wt.key, now, d)
    ensures ReadingOf(wt, data, now) == ReadingFor(wt, Some(d), now)
    ensures Day(d) - Day(now) >= 0
  {
    NextCollectionDateIsEarliest(data, wt.key, now);
  }

  /** The discovery message of every waste type announces exactly the
      topics the update loop later publishes that type's state and
      attributes to. */
  lemma DiscoveryAnnouncesUpdateTopics(types: seq<WasteType>, data: seq<Record>, now: Instant)
    ensures forall i :: 0 <= i < |types| ==>
              Member(DiscoveryMessages(types)[i].payload.doc, "state_topic")
                == Some(JString(SensorMessages(Readings(types, data, now))[2 * i].topic))
              && Member(DiscoveryMessages(types)[i].payload.doc, "json_attributes_topic")
                == Some(JString(SensorMessages(Readings(types, data, now))[2 * i + 1].topic))
  {
    var rs := Readings(types, data, now);
    var ms := SensorMessages(rs);
    SensorMessagesInOrder(rs);
    forall i | 0 <= i < |types|
      ensures Member(DiscoveryMessages(types)[i].payload.doc, "state_topic") == Some(JString(ms[2 * i].topic))
      ensures Member(DiscoveryMessages(types)[i].payload.doc, "json_attributes_topic") == Some(JString(ms[2 * i + 1].topic))
    {
      var m := DiscoveryMessage(types[i]);
      assert DiscoveryMessages(types)[i] == m;
      assert ms[2 * i].topic == StateTopic(rs[i].id);
      assert ms[2 * i + 1].topic == AttributesTopic(rs[i].id);
    }
  }
}
