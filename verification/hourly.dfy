/**
 The aggregator's hourly statistics: `group_timestamps_by_hour` puts a device's
 records into buckets by the hour their timestamp falls in, and
 `create_hourly_avg` turns each bucket into an entry with its two averages and
 its size.

 The hour of a timestamp depends on the local time zone, so it is a parameter
 `hourOf`; the averages are kept as "N/A" or "present over so many samples",
 not as floating-point values.
 */
module Hourly {

  /** A temperature or humidity field: the string 'N/A' or a number. */
  datatype Measure = NA | Value(x: real)

  /** A timestamp field: an int or float (Python's `bool` counts, being an
      `int`), or anything else. */
  datatype Stamp = Numeric(seconds: real) | NotNumeric

  /** One stored reading of a device. */
  datatype Record = Record(blobName: string, temperature: Measure, humidity: Measure, timestamp: Stamp)

  /** One entry of `hourly_groups`: an hour's start and its records. */
  datatype HourGroup = HourGroup(hour: real, records: seq<Record>)

  /** The record has a numeric timestamp falling in hour `h`. */
  predicate InHour(rec: Record, hourOf: real -> real, h: real) {
    rec.timestamp.Numeric? && hourOf(rec.timestamp.seconds) == h
  }

  /** The records of `data` that belong to hour `h`, in input order: the
      reference definition of one bucket. */
  function Bucket(data: seq<Record>, hourOf: real -> real, h: real): seq<Record>
    decreases |data|
  {
    if |data| == 0 then []
    else Bucket(data[..|data| - 1], hourOf, h) + (if InHour(data[|data| - 1], hourOf, h) then [data[|data| - 1]] else [])
  }

  /** The number of records with a numeric timestamp. */
  function NumericCount(data: seq<Record>): nat
    decreases |data|
  {
    if |data| == 0 then 0
    else NumericCount(data[..|data| - 1]) + (if data[|data| - 1].timestamp.Numeric? then 1 else 0)
  }

  ghost predicate HasHour(groups: seq<HourGroup>, h: real) {
    exists i :: 0 <= i < |groups| && groups[i].hour == h
  }

  ghost predicate DistinctHours(groups: seq<HourGroup>) {
    forall i, j :: 0 <= i < j < |groups| ==> groups[i].hour != groups[j].hour
  }

  /** The number of records over all groups. */
  function TotalRecords(groups: seq<HourGroup>): nat {
    if |groups| == 0 then 0 else |groups[0].records| + TotalRecords(groups[1..])
  }

  /** `hourly_groups[h].append(rec)` on a dict that keeps first-insertion order. */
  function Place(groups: seq<HourGroup>, h: real, rec: Record): (r: seq<HourGroup>)
    requires DistinctHours(groups)
    ensures |r| == (if HasHour(groups, h) then |groups| else |groups| + 1)
    ensures forall i :: 0 <= i < |groups| ==> r[i].hour == groups[i].hour
    ensures forall i :: 0 <= i < |groups| ==>
      r[i].records == (if groups[i].hour == h then groups[i].records + [rec] else groups[i].records)
    ensures !HasHour(groups, h) ==> r[|groups|] == HourGroup(h, [rec])
    ensures TotalRecords(r) == TotalRecords(groups) + 1
  {
    if |groups| == 0 then [HourGroup(h, [rec])]
    else if groups[0].hour == h then
      [HourGroup(h, groups[0].records + [rec])] + groups[1..]
    else
      assert HasHour(groups, h) <==> HasHour(groups[1..], h) by {
        if HasHour(groups, h) {
          var i :| 0 <= i < |groups| && groups[i].hour == h;
          assert groups[1..][i - 1].hour == h;
        }
      }
      [groups[0]] + Place(groups[1..], h, rec)
  }

  /** `groups` is a grouping of `data` by hour: one group per hour that has
      records, each holding exactly the bucket of its hour, so records keep
      their input order, and the records without a numeric timestamp are the
      only ones left out. */
  ghost predicate GroupsOf(data: seq<Record>, hourOf: real -> real, groups: seq<HourGroup>) {
    && DistinctHours(groups)
    && (forall i :: 0 <= i < |groups| ==>
          groups[i].records == Bucket(data, hourOf, groups[i].hour) && |groups[i].records| > 0)
    && (forall h :: |Bucket(data, hourOf, h)| > 0 ==> HasHour(groups, h))
    && TotalRecords(groups) == NumericCount(data)
  }

  /** A bucket grows only when a record of its own hour is appended. */
  lemma BucketSnoc(data: seq<Record>, hourOf: real -> real, h: real)
    requires |data| > 0
    ensures var last := data[|data| - 1];
      Bucket(data, hourOf, h) == Bucket(data[..|data| - 1], hourOf, h) + (if InHour(last, hourOf, h) then [last] else [])
  {
  }

  lemma PlaceKeepsBuckets(data: seq<Record>, hourOf: real -> real, groups: seq<HourGroup>)
    requires |data| > 0 && data[|data| - 1].timestamp.Numeric?
    requires GroupsOf(data[..|data| - 1], hourOf, groups)
    ensures var r := Place(groups, hourOf(data[|data| - 1].timestamp.seconds), data[|data| - 1]);
      forall i :: 0 <= i < |r| ==> r[i].records == Bucket(data, hourOf, r[i].hour) && |r[i].records| > 0
  {
    var prefix := data[..|data| - 1];
    var last := data[|data| - 1];
    var h := hourOf(last.timestamp.seconds);
    var r := Place(groups, h, last);
    forall i | 0 <= i < |r|
      ensures r[i].records == Bucket(data, hourOf, r[i].hour) && |r[i].records| > 0
    {
      BucketSnoc(data, hourOf, r[i].hour);
      if i == |groups| {
        assert !HasHour(groups, h);
        assert |Bucket(prefix, hourOf, h)| == 0;
      }
    }
  }

  lemma PlaceCoversHours(data: seq<Record>, hourOf: real -> real, groups: seq<HourGroup>)
    requires |data| > 0 && data[|data| - 1].timestamp.Numeric?
    requires GroupsOf(data[..|data| - 1], hourOf, groups)
    ensures var r := Place(groups, hourOf(data[|data| - 1].timestamp.seconds), data[|data| - 1]);
      forall h' :: |Bucket(data, hourOf, h')| > 0 ==> HasHour(r, h')
  {
    var prefix := data[..|data| - 1];
    var last := data[|data| - 1];
    var h := hourOf(last.timestamp.seconds);
    var r := Place(groups, h, last);
    forall h' | |Bucket(data, hourOf, h')| > 0
      ensures HasHour(r, h')
    {
      BucketSnoc(data, hourOf, h');
      if h' == h {
        if !HasHour(groups, h) {
          assert r[|groups|].hour == h;
        } else {
          var i :| 0 <= i < |groups| && groups[i].hour == h;
          assert r[i].hour == h;
        }
      } else {
        assert |Bucket(prefix, hourOf, h')| > 0;
        var i :| 0 <= i < |groups| && groups[i].hour == h';
        assert r[i].hour == h';
      }
    }
  }

  lemma PlaceKeepsHoursDistinct(groups: seq<HourGroup>, h: real, rec: Record)
    requires DistinctHours(groups)
    ensures DistinctHours(Place(groups, h, rec))
  {
    var r := Place(groups, h, rec);
    forall i, j | 0 <= i < j < |r| ensures r[i].hour != r[j].hour {
      if j == |groups| {
        assert !HasHour(groups, h);
        assert groups[i].hour != h;
      }
    }
  }

  /** Appending a record with a numeric timestamp extends a grouping by placing
      it in its hour's group. */
  lemma PlaceExtendsGrouping(data: seq<Record>, hourOf: real -> real, groups: seq<HourGroup>)
    requires |data| > 0 && data[|data| - 1].timestamp.Numeric?
    requires GroupsOf(data[..|data| - 1], hourOf, groups)
    ensures GroupsOf(data, hourOf, Place(groups, hourOf(data[|data| - 1].timestamp.seconds), data[|data| - 1]))
  {
    var last := data[|data| - 1];
    PlaceKeepsBuckets(data, hourOf, groups);
    PlaceCoversHours(data, hourOf, groups);
    PlaceKeepsHoursDistinct(groups, hourOf(last.timestamp.seconds), last);
  }

  /** `group_timestamps_by_hour`. Groups are added in the order their hours
      first appear; the contract states what each group holds, not that order. */
  function GroupByHour(data: seq<Record>, hourOf: real -> real): (groups: seq<HourGroup>)
    decreases |data|
    ensures GroupsOf(data, hourOf, groups)
  {
    if |data| == 0 then []
    else
      var prefix := data[..|data| - 1];
      var last := data[|data| - 1];
      var groups := GroupByHour(prefix, hourOf);
      if last.timestamp.Numeric? then
        PlaceExtendsGrouping(data, hourOf, groups);
        Place(groups, hourOf(last.timestamp.seconds), last)
      else
        assert forall h :: Bucket(data, hourOf, h) == Bucket(prefix, hourOf, h);
        groups
  }

  /** An hourly average: 'N/A' when no record of the hour had the field, else
      the mean over `samples` values. */
  datatype Average = NotAvailable | Mean(samples: nat)

  /** One element of a device's `hourly_averages` list. */
  datatype HourEntry = HourEntry(hourStart: real, avgTemperature: Average, avgHumidity: Average, dataPoints: nat)

  /** How many of `recs` have the field `field` present (not 'N/A'). */
  function PresentCount(recs: seq<Record>, field: Record -> Measure): nat {
    if |recs| == 0 then 0 else (if field(recs[0]).NA? then 0 else 1) + PresentCount(recs[1..], field)
  }

  function AverageOf(recs: seq<Record>, field: Record -> Measure): Average {
    var n := PresentCount(recs, field);
    if n > 0 then Mean(n) else NotAvailable
  }

  /** The average is 'N/A' exactly when every record has 'N/A' in that field. */
  lemma {:induction false} AverageNAExactlyWhenAllNA(recs: seq<Record>, field: Record -> Measure)
    ensures AverageOf(recs, field) == NotAvailable <==> forall i :: 0 <= i < |recs| ==> field(recs[i]).NA?
  {
    if |recs| > 0 {
      AverageNAExactlyWhenAllNA(recs[1..], field);
      assert forall i :: 1 <= i < |recs| ==> recs[i] == recs[1..][i - 1];
    }
  }

  function TemperatureOf(rec: Record): Measure { rec.temperature }
  function HumidityOf(rec: Record): Measure { rec.humidity }

  function EntryOf(g: HourGroup): HourEntry {
    HourEntry(g.hour, AverageOf(g.records, TemperatureOf), AverageOf(g.records, HumidityOf), |g.records|)
  }

  /** A device's list of hourly entries, one per group, in group order. */
  function DeviceEntries(data: seq<Record>, hourOf: real -> real): (entries: seq<HourEntry>)
    ensures var groups := GroupByHour(data, hourOf);
      && |entries| == |groups|
      && forall i :: 0 <= i < |entries| ==> entries[i] == EntryOf(groups[i])
  {
    var groups := GroupByHour(data, hourOf);
    seq(|groups|, i requires 0 <= i < |groups| => EntryOf(groups[i]))
  }

  /** `create_hourly_avg`: devices map to their hourly entries; a device with no
      group at all is left out. */
  function HourlyAverages(results: map<string, seq<Record>>, hourOf: real -> real): (out: map<string, seq<HourEntry>>)
    ensures forall d :: d in out <==> d in results && NumericCount(results[d]) > 0
    ensures forall d :: d in out ==> out[d] == DeviceEntries(results[d], hourOf)
  {
    map d | d in results && |GroupByHour(results[d], hourOf)| > 0 :: DeviceEntries(results[d], hourOf)
  }

  /** The sum of `data_points` over a list of entries. */
  function DataPoints(entries: seq<HourEntry>): nat {
    if |entries| == 0 then 0 else entries[0].dataPoints + DataPoints(entries[1..])
  }

  lemma {:induction false} DataPointsAreGroupSizes(entries: seq<HourEntry>, groups: seq<HourGroup>)
    requires |entries| == |groups|
    requires forall i :: 0 <= i < |entries| ==> entries[i] == EntryOf(groups[i])
    ensures DataPoints(entries) == TotalRecords(groups)
  {
    if |entries| > 0 {
      DataPointsAreGroupSizes(entries[1..], groups[1..]);
    }
  }

  /** Each entry describes one bucket: its hour, its size, and averages that are
      'N/A' exactly when every record of the bucket lacks the field; together
      the entries count every record with a numeric timestamp once. */
  lemma HourlyEntriesDescribeBuckets(results: map<string, seq<Record>>, hourOf: real -> real, d: string)
    requires d in results && NumericCount(results[d]) > 0
    ensures d in HourlyAverages(results, hourOf)
    ensures var entries := HourlyAverages(results, hourOf)[d];
      var data := results[d];
      && DataPoints(entries) == NumericCount(data)
      && forall i :: 0 <= i < |entries| ==>
        var b := Bucket(data, hourOf, entries[i].hourStart);
        && entries[i].dataPoints == |b| > 0
        && (entries[i].avgTemperature == NotAvailable <==> forall k :: 0 <= k < |b| ==> b[k].temperature.NA?)
        && (entries[i].avgHumidity == NotAvailable <==> forall k :: 0 <= k < |b| ==> b[k].humidity.NA?)
  {
    var entries := HourlyAverages(results, hourOf)[d];
    var data := results[d];
    var groups := GroupByHour(data, hourOf);
    DataPointsAreGroupSizes(entries, groups);
    forall i | 0 <= i < |entries|
      ensures var b := Bucket(data, hourOf, entries[i].hourStart);
        && entries[i].dataPoints == |b| > 0
        && (entries[i].avgTemperature == NotAvailable <==> forall k :: 0 <= k < |b| ==> b[k].temperature.NA?)
        && (entries[i].avgHumidity == NotAvailable <==> forall k :: 0 <= k < |b| ==> b[k].humidity.NA?)
    {
      AverageNAExactlyWhenAllNA(groups[i].records, TemperatureOf);
      AverageNAExactlyWhenAllNA(groups[i].records, HumidityOf);
    }
  }
}
