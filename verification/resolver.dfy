/** The next-collection resolver (`getNextCollectionDate`): from the
    upstream's collection records, the earliest date of one waste type that
    is not before the current instant. */
module Resolver {
  import opened Wrappers
  import opened Instants

  /** One upstream collection record as the resolver reads it.
      `fraksjon` is None when the field is missing or not a string, since
      such a value is never `===` to a waste-type name; `dato` is the
      instant `new Date(item.dato)` denotes, None for an Invalid Date. */
  datatype Record = Record(fraksjon: Option<string>, dato: Option<Instant>)

  /** Record `rec` puts a collection of `wasteType` at `d`, not before `now`. */
  predicate Schedules(rec: Record, wasteType: string, now: Instant, d: Instant) {
    rec.fraksjon == Some(wasteType) && rec.dato == Some(d) && d >= now
  }

  /** Some record of `data` schedules `wasteType` at `d`, not before `now`. */
  ghost predicate IsUpcoming(data: seq<Record>, wasteType: string, now: Instant, d: Instant) {
    exists rec :: rec in data && Schedules(rec, wasteType, now, d)
  }

  /** `d` is the earliest upcoming date of `wasteType` in `data`. */
  ghost predicate IsEarliestUpcoming(data: seq<Record>, wasteType: string, now: Instant, d: Instant) {
    IsUpcoming(data, wasteType, now, d)
    && forall e :: IsUpcoming(data, wasteType, now, e) ==> d <= e
  }

  /** `.filter(item => item.fraksjon === wasteType)` */
  function OfType(data: seq<Record>, wasteType: string): (r: seq<Record>)
    ensures forall rec :: rec in r <==> rec in data && rec.fraksjon == Some(wasteType)
  {
    if |data| == 0 then []
    else
      var rest := OfType(data[1..], wasteType);
      assert forall rec :: rec in data <==> rec == data[0] || rec in data[1..];
      if data[0].fraksjon == Some(wasteType) then [data[0]] + rest else rest
  }

  /** The filter keeps each matching record as often as the data holds it. */
  lemma {:induction false} OfTypeCounts(data: seq<Record>, wasteType: string)
    ensures forall rec :: multiset(OfType(data, wasteType))[rec]
                          == if rec.fraksjon == Some(wasteType) then multiset(data)[rec] else 0
  {
    if |data| > 0 {
      OfTypeCounts(data[1..], wasteType);
      assert data == [data[0]] + data[1..];
    }
  }

  /** The filter keeps the order of the data: filtering a concatenation
      concatenates the filtered parts. */
  lemma {:induction false} OfTypeAppend(a: seq<Record>, b: seq<Record>, wasteType: string)
    ensures OfType(a + b, wasteType) == OfType(a, wasteType) + OfType(b, wasteType)
  {
    if |a| > 0 {
      OfTypeAppend(a[1..], b, wasteType);
      assert (a + b)[1..] == a[1..] + b;
    } else {
      assert a + b == b;
    }
  }

  /** `.map(item => new Date(item.dato))` */
  function Dates(recs: seq<Record>): (r: seq<Option<Instant>>)
    ensures |r| == |recs|
    ensures forall i :: 0 <= i < |recs| ==> r[i] == recs[i].dato
  {
    if |recs| == 0 then [] else [recs[0].dato] + Dates(recs[1..])
  }

  /** `.filter(date => date >= now)`: an Invalid Date compares false. */
  function AtOrAfter(dates: seq<Option<Instant>>, now: Instant): (r: seq<Instant>)
    ensures forall d :: d in r <==> Some(d) in dates && d >= now
  {
    if |dates| == 0 then []
    else
      var rest := AtOrAfter(dates[1..], now);
      assert forall o :: o in dates <==> o == dates[0] || o in dates[1..];
      if dates[0].Some? && dates[0].value >= now then [dates[0].value] + rest else rest
  }

  /** The filter keeps each valid date not before now as often as the
      dates hold it. */
  lemma {:induction false} AtOrAfterCounts(dates: seq<Option<Instant>>, now: Instant)
    ensures forall d :: multiset(AtOrAfter(dates, now))[d]
                        == if d >= now then multiset(dates)[Some(d)] else 0
  {
    if |dates| > 0 {
      AtOrAfterCounts(dates[1..], now);
      assert dates == [dates[0]] + dates[1..];
    }
  }

  /** The filter keeps the order of the dates. */
  lemma {:induction false} AtOrAfterAppend(a: seq<Option<Instant>>, b: seq<Option<Instant>>, now: Instant)
    ensures AtOrAfter(a + b, now) == AtOrAfter(a, now) + AtOrAfter(b, now)
  {
    if |a| > 0 {
      var x, ab := a[0], a + b;
      assert ab[0] == x && ab[1..] == a[1..] + b;
      AtOrAfterAppend(a[1..], b, now);
      var keep := if x.Some? && x.value >= now then [x.value] else [];
      assert AtOrAfter(ab, now) == keep + AtOrAfter(a[1..] + b, now);
      assert AtOrAfter(a, now) == keep + AtOrAfter(a[1..], now);
    } else {
      assert a + b == b;
    }
  }

  /** The dates the resolver chooses among. */
  function Candidates(data: seq<Record>, wasteType: string, now: Instant): seq<Instant> {
    AtOrAfter(Dates(OfType(data, wasteType)), now)
  }

  lemma CandidatesAreUpcoming(data: seq<Record>, wasteType: string, now: Instant, d: Instant)
    ensures d in Candidates(data, wasteType, now) <==> IsUpcoming(data, wasteType, now, d)
  {
    var recs := OfType(data, wasteType);
    var dates := Dates(recs);
    if d in Candidates(data, wasteType, now) {
      var i :| 0 <= i < |dates| && dates[i] == Some(d);
      assert Schedules(recs[i], wasteType, now, d);
    }
    if IsUpcoming(data, wasteType, now, d) {
      var rec :| rec in data && Schedules(rec, wasteType, now, d);
      var i :| 0 <= i < |recs| && recs[i] == rec;
      assert dates[i] == Some(d);
    }
  }

  predicate SortedAscending(s: seq<Instant>) {
    forall i, j :: 0 <= i < j < |s| ==> s[i] <= s[j]
  }

  /** Insert `x` into an ascending sequence. */
  function Insert(x: Instant, s: seq<Instant>): (r: seq<Instant>)
    requires SortedAscending(s)
    ensures SortedAscending(r)
    ensures multiset(r) == multiset(s) + multiset{x}
  {
    if |s| == 0 || x <= s[0] then
      SortedCons(x, s);
      [x] + s
    else
      var rest := Insert(x, s[1..]);
      assert s == [s[0]] + s[1..];
      var others := s[1..] + [x];
      assert multiset(others) == multiset(rest);
      AllAtLeast(s[0], others, rest);
      SortedCons(s[0], rest);
      assert multiset([s[0]] + rest) == multiset{s[0]} + multiset(rest);
      [s[0]] + rest
  }

  /** A lower bound of every element of `s` bounds every element of any
      permutation `t` of it. */
  lemma AllAtLeast(lo: int, s: seq<Instant>, t: seq<Instant>)
    requires forall i :: 0 <= i < |s| ==> lo <= s[i]
    requires multiset(s) == multiset(t)
    ensures forall k :: 0 <= k < |t| ==> lo <= t[k]
  {
    forall k | 0 <= k < |t| ensures lo <= t[k] {
      assert t[k] in multiset(s);
    }
  }

  /** An ascending sequence stays ascending under a lower bound. */
  lemma SortedCons(lo: Instant, t: seq<Instant>)
    requires SortedAscending(t)
    requires forall k :: 0 <= k < |t| ==> lo <= t[k]
    ensures SortedAscending([lo] + t)
  {
  }

  /** `.sort((a, b) => a - b)`: the same dates in ascending order. */
  function SortAscending(s: seq<Instant>): (r: seq<Instant>)
    ensures SortedAscending(r)
    ensures multiset(r) == multiset(s)
  {
    if |s| == 0 then []
    else
      assert s == [s[0]] + s[1..];
      Insert(s[0], SortAscending(s[1..]))
  }

  /** `getNextCollectionDate(data, wasteType)` with the clock reading `now`:
      the first of the sorted candidates, or None when there are none. */
  function NextCollectionDate(data: seq<Record>, wasteType: string, now: Instant): Option<Instant> {
    var sorted := SortAscending(Candidates(data, wasteType, now));
    if |sorted| > 0 then Some(sorted[0]) else None
  }

  /** The resolver returns the earliest upcoming date of the waste type, and
      None exactly when the type has no upcoming date. */
  lemma NextCollectionDateIsEarliest(data: seq<Record>, wasteType: string, now: Instant)
    ensures NextCollectionDate(data, wasteType, now).None?
            <==> forall d :: !IsUpcoming(data, wasteType, now, d)
    ensures forall d: Instant ::
              (NextCollectionDate(data, wasteType, now) == Some(d) <==> IsEarliestUpcoming(data, wasteType, now, d))
  {
    var cands := Candidates(data, wasteType, now);
    var sorted := SortAscending(cands);
    forall d ensures d in sorted <==> IsUpcoming(data, wasteType, now, d) {
      assert d in sorted <==> d in multiset(sorted);
      assert d in cands <==> d in multiset(cands);
      CandidatesAreUpcoming(data, wasteType, now, d);
    }
    if |sorted| > 0 {
      forall e | IsUpcoming(data, wasteType, now, e) ensures sorted[0] <= e {
        var j :| 0 <= j < |sorted| && sorted[j] == e;
      }
      forall d | IsEarliestUpcoming(data, wasteType, now, d) ensures d == sorted[0] {
        assert sorted[0] in sorted;
      }
    }
  }

  /** The result depends only on which dates are upcoming for the type. */
  lemma NextCollectionDateDependsOnlyOnUpcoming(a: seq<Record>, b: seq<Record>, wasteType: string, now: Instant)
    requires forall d :: IsUpcoming(a, wasteType, now, d) <==> IsUpcoming(b, wasteType, now, d)
    ensures NextCollectionDate(a, wasteType, now) == NextCollectionDate(b, wasteType, now)
  {
    NextCollectionDateIsEarliest(a, wasteType, now);
    NextCollectionDateIsEarliest(b, wasteType, now);
    var ra := NextCollectionDate(a, wasteType, now);
    if ra.Some? {
      assert IsEarliestUpcoming(b, wasteType, now, ra.value);
    }
  }

  /** Adding a record of another waste type anywhere in the data, or removing
      one, leaves the result for `wasteType` unchanged. */
  lemma OtherWasteTypesIrrelevant(a: seq<Record>, b: seq<Record>, other: Record, wasteType: string, now: Instant)
    requires other.fraksjon != Some(wasteType)
    ensures NextCollectionDate(a + [other] + b, wasteType, now) == NextCollectionDate(a + b, wasteType, now)
  {
    forall d ensures IsUpcoming(a + [other] + b, wasteType, now, d) <==> IsUpcoming(a + b, wasteType, now, d) {
      if IsUpcoming(a + [other] + b, wasteType, now, d) {
        var rec :| rec in a + [other] + b && Schedules(rec, wasteType, now, d);
        assert rec in a + b;
      }
      if IsUpcoming(a + b, wasteType, now, d) {
        var rec :| rec in a + b && Schedules(rec, wasteType, now, d);
        assert rec in a + [other] + b;
      }
    }
    NextCollectionDateDependsOnlyOnUpcoming(a + [other] + b, a + b, wasteType, now);
  }

  /** The comparison is with the current instant, not with the start of the
      day: a collection dated at midnight of today is passed over as soon as
      the day has begun. */
  lemma TodayAtMidnightIsPassedOver(wasteType: string, now: Instant)
    requires StartOfDay(now) < now
    ensures NextCollectionDate([Record(Some(wasteType), Some(StartOfDay(now)))], wasteType, now) == None
  {
    NextCollectionDateIsEarliest([Record(Some(wasteType), Some(StartOfDay(now)))], wasteType, now);
  }

  /** The data of a three-record example: two food-waste collections
      three and ten days on and a paper collection tomorrow. */
  function ExampleData(now: Instant): seq<Record>
    requires now + 10 * MsPerDay <= MaxTime
  {
    [Record(Some("Matavfall"), Some(now + 3 * MsPerDay)),
     Record(Some("Matavfall"), Some(now + 10 * MsPerDay)),
     Record(Some("Papir"), Some(now + MsPerDay))]
  }

  /** Food waste resolves to the earlier of its two collections. */
  lemma ExampleFoodWaste(now: Instant)
    requires now + 10 * MsPerDay <= MaxTime
    ensures NextCollectionDate(ExampleData(now), "Matavfall", now) == Some(now + 3 * MsPerDay)
  {
    var data := ExampleData(now);
    forall d | IsUpcoming(data, "Matavfall", now, d) ensures now + 3 * MsPerDay <= d {
      var rec :| rec in data && Schedules(rec, "Matavfall", now, d);
    }
    assert Schedules(data[0], "Matavfall", now, now + 3 * MsPerDay);
    NextCollectionDateIsEarliest(data, "Matavfall", now);
  }

  /** Paper resolves to tomorrow's collection. */
  lemma ExamplePaper(now: Instant)
    requires now + 10 * MsPerDay <= MaxTime
    ensures NextCollectionDate(ExampleData(now), "Papir", now) == Some(now + MsPerDay)
  {
    var data := ExampleData(now);
    forall d | IsUpcoming(data, "Papir", now, d) ensures now + MsPerDay <= d {
      var rec :| rec in data && Schedules(rec, "Papir", now, d);
    }
    assert Schedules(data[2], "Papir", now, now + MsPerDay);
    NextCollectionDateIsEarliest(data, "Papir", now);
  }

  /** Residual waste, absent from the data, resolves to none. */
  lemma ExampleResidualWaste(now: Instant)
    requires now + 10 * MsPerDay <= MaxTime
    ensures NextCollectionDate(ExampleData(now), "Restavfall", now) == None
  {
    var data := ExampleData(now);
    NextCollectionDateIsEarliest(data, "Restavfall", now);
  }
}
