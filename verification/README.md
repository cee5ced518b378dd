# renovasjon-mqtt in Dafny

A model of the core of `renovasjon-mqtt.js`, a daemon that reads the waste
collection calendar of one property from Time kommune's renovasjon service
and publishes, per waste type (Matavfall, Papir, Restavfall), a Home
Assistant MQTT sensor: a retained discovery message, the next collection
date as the sensor state, and an attributes object
`{next_collection, days_until, waste_type}`.

The model covers:

- the next-collection resolver `getNextCollectionDate`: filter by
  `fraksjon`, map to dates, keep those at or after now, sort, take the head
  (`resolver.dfy`);
- `formatDate` and `getDaysUntil`, on top of a model of ECMAScript time
  values: millisecond instants, the UTC day, the proleptic Gregorian
  calendar and the text of `Date.prototype.toISOString`
  (`calendar.dfy`, `instants.dfy`, `sensors.dfy`);
- the sensor identifier `toLowerCase().replace('å', 'a')`, the topics, the
  discovery payload and the state and attributes messages (`sensors.dfy`,
  with the string helpers in `text.dfy`);
- the synchronisation cycle `updateSensors` with the guards of
  `getAuthToken` and `fetchRenovasjonData`, as a state machine over the
  held token and a trace of login calls, fetch calls and publishes; the
  `connect` handler; and cycles run one after another (`sync.dfy`).

The outcomes of the login and fetch requests and the clock reading are
inputs of the model. JSON values are a datatype (`Sensors.Json`); a message
carries the value that `JSON.stringify` would serialise.

Two behaviours of the code worth knowing:

- The resolver compares each date with the current instant
  (`date >= now`), not with the start of the day. A collection dated at
  midnight of today is passed over as soon as the day has begun
  (`Resolver.TodayAtMidnightIsPassedOver`), so the resolver can return
  none on the very day of a collection.
- Cycles are started by a free-running `setInterval` that every `connect`
  arms again, so nothing in the code keeps two cycles from overlapping.
  The model runs cycles one after another.

## Model

| member | source | states |
|---|---|---|
| Text.BeforeFirst | renovasjon-mqtt.js:101-102 | `split('T')[0]`: the result is a prefix of the text, holds no `T`, and ends the text or stops at its first `T` |
| Text.ReplaceFirst | renovasjon-mqtt.js:170 | `replace` with a one-character pattern: only the first occurrence changes, every other character and the length stay |
| Text.ToLower | renovasjon-mqtt.js:170 | `toLowerCase`: each character maps to its lower-case letter, others are kept |
| Calendar.CivilFromDays | renovasjon-mqtt.js:147 | the calendar date of a day number is a valid date whose day number is that day |
| Calendar.CivilFromDaysRoundTrip | renovasjon-mqtt.js:147 | day numbers and valid dates correspond one to one |
| Calendar.YearTextRoundTrip | renovasjon-mqtt.js:147 | the year text, four digits or a sign and six digits, reads back as the year |
| Calendar.DateTextRoundTrip | renovasjon-mqtt.js:147 | the `YYYY-MM-DD` text of every representable date reads back as that date |
| Instants.StartOfDay | renovasjon-mqtt.js:153-154 | `setHours(0, 0, 0, 0)`: the first millisecond of the same day, at most the instant and less than a day before it |
| Instants.CeilDiv | renovasjon-mqtt.js:156 | `Math.ceil(a / b)`: the least integer `q` with `a <= q * b` |
| Resolver.OfType | renovasjon-mqtt.js:137 | the records kept are exactly those of the requested `fraksjon` |
| Resolver.OfTypeCounts | renovasjon-mqtt.js:137 | each record of the requested `fraksjon` is kept as many times as the data holds it, every other record never |
| Resolver.OfTypeAppend | renovasjon-mqtt.js:137 | the filter keeps the data's order: filtering a concatenation concatenates the filtered parts |
| Resolver.Dates | renovasjon-mqtt.js:138 | one date per record, in order; an Invalid Date stays in place as none |
| Resolver.AtOrAfter | renovasjon-mqtt.js:139 | the dates kept are exactly the valid ones not before now |
| Resolver.AtOrAfterCounts | renovasjon-mqtt.js:139 | each valid date not before now is kept as many times as it occurs, every other date never |
| Resolver.AtOrAfterAppend | renovasjon-mqtt.js:139 | the filter keeps the dates' order: filtering a concatenation concatenates the filtered parts |
| Resolver.SortAscending | renovasjon-mqtt.js:140 | the result is ascending and a permutation of the input |
| Resolver.CandidatesAreUpcoming | renovasjon-mqtt.js:136-139 | a date is a candidate exactly when some record of the type puts it at or after now |
| Resolver.NextCollectionDateIsEarliest | renovasjon-mqtt.js:134-143 | none exactly when the type has no date at or after now; otherwise the earliest such date of a record of the type |
| Resolver.NextCollectionDateDependsOnlyOnUpcoming | renovasjon-mqtt.js:136-142 | two data sets with the same upcoming dates for a type give the same result |
| Resolver.OtherWasteTypesIrrelevant | renovasjon-mqtt.js:137 | inserting or removing a record of another type anywhere leaves the result unchanged |
| Resolver.TodayAtMidnightIsPassedOver | renovasjon-mqtt.js:139 | once a day has begun, a collection dated at its midnight is not returned |
| Resolver.ExampleFoodWaste | renovasjon-mqtt.js:134-143 | with food waste in 3 and 10 days and paper tomorrow, food waste resolves to 3 days on |
| Resolver.ExamplePaper | renovasjon-mqtt.js:134-143 | in the same data, paper resolves to tomorrow |
| Resolver.ExampleResidualWaste | renovasjon-mqtt.js:134-143 | in the same data, residual waste resolves to none |
| Sensors.SensorIdCharacters | renovasjon-mqtt.js:170 | the name lower-cased, with its first a-ring of either case written `a` and any later one left `å`; no upper-case letter remains |
| Sensors.SensorIdWithoutAring | renovasjon-mqtt.js:170 | a name with no a-ring is only lower-cased |
| Sensors.ConfiguredSensorIds | renovasjon-mqtt.js:43-47 | the three configured types get the identifiers `matavfall`, `papir` and `restavfall` |
| Sensors.OnlyFirstAringReplaced | renovasjon-mqtt.js:170 | `Åå` becomes `aå`: the second a-ring stays |
| Sensors.TopicsIdentifySensor | renovasjon-mqtt.js:172-177 | a topic determines its sensor identifier, and the config, state and attributes topics never coincide |
| Sensors.DiscoveryMessage | renovasjon-mqtt.js:172-182 | retained, on the config topic, with the type's display name and icon, `unique_id` `renovasjon_` + id, the state and attributes topics and the shared device |
| Sensors.DiscoveryMessages | renovasjon-mqtt.js:168-184 | one discovery message per waste type, in table order |
| Sensors.FormatDate | renovasjon-mqtt.js:145-148 | the sentinel `Ingen planlagt` exactly when there is no date; otherwise exactly the `YYYY-MM-DD` text of the date's calendar date, which has no `T` and reads back as that date |
| Sensors.DaysUntil | renovasjon-mqtt.js:150-158 | none exactly when there is no date; otherwise the difference of the two day numbers |
| Sensors.DaysUntilIgnoresTimeOfDay | renovasjon-mqtt.js:150-158 | the same day gives 0 and the next day 1, whatever the hour of either |
| Sensors.AttributesMessage | renovasjon-mqtt.js:208-215 | not retained, on the attributes topic, with `next_collection` equal to the state text, `days_until` (null for none) and `waste_type` |
| Sensors.SensorMessagesInOrder | renovasjon-mqtt.js:198-218 | message `2i` is the state of type `i` and message `2i+1` its attributes; none is retained |
| Sensors.SensorShowsSentinelWithoutDate | renovasjon-mqtt.js:199-202 | the state is the sentinel exactly when the type has no upcoming date, and exactly when `days_until` is null |
| Sensors.SensorReportsEarliest | renovasjon-mqtt.js:199-202 | when the type has an earliest upcoming date, the reading is the one of that date, which lies zero or more days ahead |
| Sensors.DiscoveryAnnouncesUpdateTopics | renovasjon-mqtt.js:176-177 | each discovery message announces exactly the topics the update loop publishes that type's state and attributes to |
| Sync.GetAuthToken | renovasjon-mqtt.js:69-79 | a token exactly when the reply has status 200 and a non-empty `token` header, and then that header |
| Sync.FetchWindow | renovasjon-mqtt.js:97-102 | the window starts now and ends 90 days on; none when the end is beyond the range of `Date` |
| Sync.QueryDatesReadBack | renovasjon-mqtt.js:101-104 | the `datoFra` and `datoTil` texts are exactly the `YYYY-MM-DD` texts of the window's ends, hold no `T` and read back as those dates |
| Sync.FetchRenovasjonData | renovasjon-mqtt.js:90-131 | no request and a rejection without a token; otherwise one request with the property and token, resolving with the parsed body |
| Sync.RecordsOf | renovasjon-mqtt.js:136-137 | the records exist exactly when the body is an array without `null` elements; otherwise the loop throws |
| Sync.UpdateSensors | renovasjon-mqtt.js:187-223 | a cycle only appends to the trace, and afterwards the token is either absent or non-empty |
| Sync.UpdateSensorsFailure | renovasjon-mqtt.js:187-223 | a failed cycle adds only its login and fetch calls, publishes nothing and clears the token |
| Sync.UpdateSensorsSuccess | renovasjon-mqtt.js:187-218 | a successful cycle keeps its token and adds its login call if needed, the one fetch, then the update messages |
| Sync.UpdateSensorsOutcome | renovasjon-mqtt.js:187-223 | a login exactly without a held token, a fetch exactly with a token and a window, a token afterwards exactly on success, two publishes per type on success and none otherwise |
| Sync.AuthFailureSkipsFetchAndPublish | renovasjon-mqtt.js:190-193 | without a token and with a failed login, the cycle makes one login call, no fetch, no publish, and holds no token |
| Sync.SuccessPublishesEachTypeInOrder | renovasjon-mqtt.js:198-218 | on success each type gets its state message and then its attributes message, in table order, none retained |
| Sync.UpdateTopics | renovasjon-mqtt.js:198-215 | on success type `i`'s state topic is that of message `2i` and its attributes topic that of message `2i+1`, both built from its sensor identifier |
| Sync.DaemonPublishOrder | renovasjon-mqtt.js:198-215 | with the daemon's table the six publishes go to the state and attributes topics of `matavfall`, `papir` and `restavfall`, in that order |
| Sync.FetchFailureForcesRelogin | renovasjon-mqtt.js:219-223 | after a cycle whose fetch failed the token is cleared and the next cycle starts with a login |
| Sync.Run | renovasjon-mqtt.js:247 | cycles run one after another; the trace only grows and the token stays absent or non-empty |
| Sync.CycleFetchesAtMostOnce | renovasjon-mqtt.js:187-223 | one cycle makes at most one fetch |
| Sync.RunFetchesAtMostOncePerTick | renovasjon-mqtt.js:196 | over any run, there are no more fetches than cycles |
| Sync.OnConnect | renovasjon-mqtt.js:237-244 | on connect the discovery messages are published first, then a cycle runs |
| Sync.ConnectPublishesDiscovery | renovasjon-mqtt.js:237-240 | the first publishes of a connect are exactly the discovery messages |
| Sync.DiscoveryIsIdempotent | renovasjon-mqtt.js:160-185 | every connect publishes the same retained discovery messages, whatever the daemon's state |

## Left out

- HTTPS requests, response streaming and `JSON.parse`: the login and fetch outcomes are inputs (`Sync.LoginOutcome`, `Sync.FetchOutcome`); the URL, the login body and the request headers are not modelled, and the fetch response status is not inspected, as in the code.
- `new Date(item.dato)`: the parsing of the upstream's date text is not modelled; a record holds the instant the text denotes, or none for an Invalid Date.
- Record shapes: any array element other than `null` is a record whose `fraksjon` is none when it is missing or not a string, and whose `dato` is an instant or an Invalid Date. A `dato` that `new Date` cannot convert to a primitive (an object whose `valueOf` and `toString` give no primitive, or a symbol) makes the code throw inside the loop; the model has no such value.
- Sync.UpdateSensorsOutcome: the model's two publishes per type on success and none otherwise do not cover a throw from `new Date(item.dato)` midway through the loop, after which the types before the throwing one stay published and the token is cleared, because record `dato` values are only instants or Invalid Dates.
- `JSON.stringify`: messages carry the JSON value, not its text.
- The local time zone and daylight saving time: `setHours`, `setDate` and the day of an instant are taken in UTC, where every day lasts 24 hours.
- The clock is read once per cycle; the code reads it separately in `fetchRenovasjonData`, `getNextCollectionDate` and `getDaysUntil`.
- `toLowerCase` is modelled for ASCII and Latin-1 letters only.
- The floating-point division in `getDaysUntil`: it is taken as the integer ceiling of the millisecond difference over 86 400 000. In a time zone with daylight saving time the two local midnights can be 23 or 25 hours apart per changeover, and then the ceiling of the code is not a whole-day count.
- Sensors.DaysUntil: equals the difference of UTC day numbers; the code's local-time `setHours` over a 25-hour autumn day rounds up, so a date after the changeover gets one day more (on 2024-10-27 10:00 in Europe/Oslo, the next day gives 2).
- Sensors.DaysUntilIgnoresTimeOfDay: "the next day gives 1" holds in the model's UTC day only, for the same reason.
- Sensors.SensorReportsEarliest: `days_until` is zero or more because the model reads the clock once per cycle; the code reads it again in `getDaysUntil`, and a loop that crosses midnight after choosing today's collection reports -1.
- The MQTT client, its error handler and publish failures: publishes are taken to succeed.
- `setInterval`: the timer, and cycles overlapping when one outlasts the interval, are not modelled; `Sync.Run` runs cycles one after another.
- Loading `config.json`, the defaults and the `process.exit` paths: a cycle requires a non-empty property identifier and a non-empty waste-type table (`Sync.ValidConfig`), as the daemon's own table `Sensors.WasteTypes` is; with an empty table the code would never read the body, so a malformed body would not clear the token.
- `console.log` and `console.error` output.
- `renovasjon-find-property.js`, the interactive property lookup, is not part of this model.
- Sync.DiscoveryIsIdempotent: states that the discovery messages are equal as values, not that their serialised bytes are, because `JSON.stringify` is not modelled.
