/**
 The aggregator's HTTP handler (`http_trigger`) with storage access abstracted:
 which lines of which blobs produce a record, the device filter, the per-device
 `results` map, and the response in its two forms (hourly averages for
 `avg=yes`, raw records otherwise).

 Blob listing, download, base64 and `literal_eval` decoding are not modelled;
 a blob arrives as its name and its lines already classified.
 */
module TelemetryApi {
  import opened Wrappers
  import opened Hourly

  /** A decoded message body: the four fields read with `.get(..., 'N/A')`. */
  datatype Body = Body(temperature: Measure, humidity: Measure, timestamp: Stamp, deviceId: string)

  /** One line of a blob, as the loop classifies it. */
  datatype Line =
    | Blank               // empty once stripped: skipped
    | BadJson             // `json.loads` rejects it: logged, skipped
    | NoBody              // "Body" missing or empty: logged, skipped
    | Decoded(body: Body) // the body decodes to a dict
    | Fails               // decoding raised: the rest of the blob is abandoned

  datatype Blob = Blob(name: string, lines: seq<Line>)

  /** A decoded body together with the blob it came from. */
  datatype Arrival = Arrival(blobName: string, body: Body)

  const JsonSuffix: string := ".json"

  predicate IsJsonBlob(name: string) {
    |name| >= |JsonSuffix| && name[|name| - |JsonSuffix|..] == JsonSuffix
  }

  /** The position of the first line whose decoding raises, or `|lines|` when
      none does: the loop abandons the blob there. */
  function FirstFailure(lines: seq<Line>): (n: nat)
    ensures n <= |lines|
    ensures Fails !in lines[..n]
    ensures n < |lines| ==> lines[n] == Fails
  {
    if |lines| == 0 || lines[0] == Fails then 0
    else
      var n := 1 + FirstFailure(lines[1..]);
      assert lines[..n] == [lines[0]] + lines[1..][..n - 1];
      n
  }

  /** The decoded lines of `lines`, in order, tagged with the blob's name: the
      reference definition of what a blob contributes. */
  function DecodedArrivals(name: string, lines: seq<Line>): (r: seq<Arrival>)
    decreases |lines|
    ensures forall k :: 0 <= k < |r| ==> r[k].blobName == name
  {
    if |lines| == 0 then []
    else
      var last := lines[|lines| - 1];
      DecodedArrivals(name, lines[..|lines| - 1]) + (if last.Decoded? then [Arrival(name, last.body)] else [])
  }

  lemma {:induction false} DecodedArrivalsConcat(name: string, xs: seq<Line>, ys: seq<Line>)
    ensures DecodedArrivals(name, xs + ys) == DecodedArrivals(name, xs) + DecodedArrivals(name, ys)
    decreases |ys|
  {
    if |ys| == 0 {
      assert xs + ys == xs;
    } else {
      assert (xs + ys)[..|xs + ys| - 1] == xs + ys[..|ys| - 1];
      DecodedArrivalsConcat(name, xs, ys[..|ys| - 1]);
    }
  }

  /** One line that does not raise, followed by the rest of the blob. */
  lemma ReachedPastFirstLine(name: string, lines: seq<Line>)
    requires |lines| > 0 && lines[0] != Fails
    ensures DecodedArrivals(name, lines[..FirstFailure(lines)])
      == DecodedArrivals(name, [lines[0]]) + DecodedArrivals(name, lines[1..][..FirstFailure(lines[1..])])
  {
    var rest := lines[1..];
    assert lines[..FirstFailure(lines)] == [lines[0]] + rest[..FirstFailure(rest)];
    DecodedArrivalsConcat(name, [lines[0]], rest[..FirstFailure(rest)]);
  }

  /** The bodies of a blob the loop reaches, scanning its lines from the top:
      exactly the decoded lines before the first line whose decoding raises, in
      order. */
  function BodiesReached(name: string, lines: seq<Line>): (r: seq<Arrival>)
    ensures r == DecodedArrivals(name, lines[..FirstFailure(lines)])
  {
    if |lines| == 0 || lines[0] == Fails then []
    else
      ReachedPastFirstLine(name, lines);
      assert [lines[0]][..0] == [];
      (if lines[0].Decoded? then [Arrival(name, lines[0].body)] else []) + BodiesReached(name, lines[1..])
  }

  /** All bodies reached, blob after blob; blobs not named `*.json` are skipped. */
  function Arrivals(blobs: seq<Blob>): (r: seq<Arrival>)
    decreases |blobs|
    ensures forall k :: 0 <= k < |r| ==> IsJsonBlob(r[k].blobName)
  {
    if |blobs| == 0 then []
    else
      var b := blobs[|blobs| - 1];
      Arrivals(blobs[..|blobs| - 1]) + (if IsJsonBlob(b.name) then BodiesReached(b.name, b.lines) else [])
  }

  /** The bodies of a listing are those of its parts in listing order, and a
      single blob contributes its reached bodies exactly when its name ends in
      `.json`: the records come blob by blob, in the order the blobs are listed. */
  lemma {:induction false} ArrivalsConcat(a: seq<Blob>, b: seq<Blob>)
    ensures Arrivals(a + b) == Arrivals(a) + Arrivals(b)
    ensures |b| == 1 ==> Arrivals(b) == (if IsJsonBlob(b[0].name) then BodiesReached(b[0].name, b[0].lines) else [])
    decreases |b|
  {
    if |b| == 0 {
      assert a + b == a;
    } else {
      assert (a + b)[..|a + b| - 1] == a + b[..|b| - 1];
      ArrivalsConcat(a, b[..|b| - 1]);
      if |b| == 1 {
        assert b[..0] == [];
      }
    }
  }

  function LowerChar(c: char): char {
    if 'A' <= c <= 'Z' then (c as int + 32) as char else c
  }

  /** `str.lower()` on ASCII letters. */
  function Lower(s: string): (r: string)
    ensures |r| == |s|
    ensures forall i :: 0 <= i < |s| ==> r[i] == LowerChar(s[i])
  {
    seq(|s|, i requires 0 <= i < |s| => LowerChar(s[i]))
  }

  predicate HasUpper(s: string) {
    exists i :: 0 <= i < |s| && 'A' <= s[i] <= 'Z'
  }

  /** Lowercasing leaves no upper-case letter behind. */
  lemma LowerHasNoUpper(s: string)
    ensures !HasUpper(Lower(s))
  {
  }

  /** `device_id_param.lower() if device_id_param else None`: an absent or empty
      parameter means no filter. */
  function DeviceFilter(param: Option<string>): (f: Option<string>)
    ensures f.Some? <==> param.Some? && |param.value| > 0
    ensures f.Some? ==> !HasUpper(f.value) && |f.value| == |param.value|
    ensures f.Some? ==> forall i :: 0 <= i < |f.value| ==> f.value[i] == LowerChar(param.value[i])
  {
    LowerHasNoUpper(if param.Some? then param.value else "");
    if param.Some? && |param.value| > 0 then Some(Lower(param.value)) else None
  }

  /** The keep rule for a decoded body: the filter, when there is one, equals the
      raw device id, and the timestamp is numeric. */
  predicate Admits(filter: Option<string>, b: Body) {
    (filter.None? || filter.value == b.deviceId) && b.timestamp.Numeric?
  }

  function RecordOf(a: Arrival): Record {
    Record(a.blobName, a.body.temperature, a.body.humidity, a.body.timestamp)
  }

  /** The records kept for device `d`, in arrival order: the reference
      definition of one entry of `results`. */
  function Selected(arrivals: seq<Arrival>, filter: Option<string>, d: string): seq<Record>
    decreases |arrivals|
  {
    if |arrivals| == 0 then []
    else
      var a := arrivals[|arrivals| - 1];
      Selected(arrivals[..|arrivals| - 1], filter, d)
        + (if Admits(filter, a.body) && a.body.deviceId == d then [RecordOf(a)] else [])
  }

  /** The `results` dict, built by `results[device_id].append(...)` for each kept
      body: a device is present exactly when some body of it was kept, and then
      holds exactly its kept records in order. */
  function Results(arrivals: seq<Arrival>, filter: Option<string>): (m: map<string, seq<Record>>)
    decreases |arrivals|
    ensures forall d :: d in m <==> |Selected(arrivals, filter, d)| > 0
    ensures forall d :: d in m ==> m[d] == Selected(arrivals, filter, d)
  {
    if |arrivals| == 0 then map[]
    else
      var m := Results(arrivals[..|arrivals| - 1], filter);
      var a := arrivals[|arrivals| - 1];
      if Admits(filter, a.body) then
        var d := a.body.deviceId;
        m[d := (if d in m then m[d] else []) + [RecordOf(a)]]
      else
        m
  }

  /** Every kept record has a numeric timestamp. */
  lemma {:induction false} SelectedAllNumeric(arrivals: seq<Arrival>, filter: Option<string>, d: string)
    ensures NumericCount(Selected(arrivals, filter, d)) == |Selected(arrivals, filter, d)|
    decreases |arrivals|
  {
    if |arrivals| > 0 {
      var prefix := arrivals[..|arrivals| - 1];
      var a := arrivals[|arrivals| - 1];
      var sel := Selected(arrivals, filter, d);
      SelectedAllNumeric(prefix, filter, d);
      if Admits(filter, a.body) && a.body.deviceId == d {
        assert sel[..|sel| - 1] == Selected(prefix, filter, d);
        assert sel[|sel| - 1] == RecordOf(a);
      } else {
        assert sel == Selected(prefix, filter, d);
      }
    }
  }

  /** With a filter, records are kept only for the device the filter names. */
  lemma {:induction false} SelectedOnlyFilteredDevice(arrivals: seq<Arrival>, f: string, d: string)
    requires |Selected(arrivals, Some(f), d)| > 0
    ensures d == f
    decreases |arrivals|
  {
    var prefix := arrivals[..|arrivals| - 1];
    var a := arrivals[|arrivals| - 1];
    if !(Admits(Some(f), a.body) && a.body.deviceId == d) {
      SelectedOnlyFilteredDevice(prefix, f, d);
    }
  }

  /** Given a device filter, the results hold at most that one device, and never
      a device whose id has an upper-case letter: the filter is lowercased but
      compared with the id as stored. */
  lemma FilteredResults(arrivals: seq<Arrival>, param: string)
    requires |param| > 0
    ensures var m := Results(arrivals, DeviceFilter(Some(param)));
      && m.Keys <= {Lower(param)}
      && forall d :: d in m ==> !HasUpper(d)
  {
  }

  /** The `data` part of the response. */
  datatype Data = HourlyData(averages: map<string, seq<HourEntry>>) | RawData(records: map<string, seq<Record>>)

  /** What the handler returns: the 500 when the storage connection string is
      missing, or the JSON document with its device count. */
  datatype Response = StorageNotConfigured | Ok(totalDevicesProcessed: nat, data: Data)

  function Devices(data: Data): set<string> {
    match data
    case HourlyData(m) => m.Keys
    case RawData(m) => m.Keys
  }

  /** `req.params.get('avg', 'no').lower() == 'yes'` */
  predicate WantsAverages(avgParam: Option<string>) {
    Lower(if avgParam.Some? then avgParam.value else "no") == "yes"
  }

  /** `http_trigger` over already-listed blobs. */
  function Respond(avgParam: Option<string>, deviceParam: Option<string>, connection: Option<string>,
                   blobs: seq<Blob>, hourOf: real -> real): (resp: Response)
    ensures resp.StorageNotConfigured? <==> connection.None? || |connection.value| == 0
    ensures resp.Ok? ==> resp.totalDevicesProcessed == |Devices(resp.data)|
    ensures resp.Ok? ==> (resp.data.HourlyData? <==> WantsAverages(avgParam))
    ensures resp.Ok? && !WantsAverages(avgParam) ==>
      resp.data == RawData(Results(Arrivals(blobs), DeviceFilter(deviceParam)))
    ensures resp.Ok? && WantsAverages(avgParam) ==>
      resp.data == HourlyData(HourlyAverages(Results(Arrivals(blobs), DeviceFilter(deviceParam)), hourOf))
  {
    if connection.None? || |connection.value| == 0 then StorageNotConfigured
    else
      var results := Results(Arrivals(blobs), DeviceFilter(deviceParam));
      if WantsAverages(avgParam) then
        var out := HourlyAverages(results, hourOf);
        Ok(|out.Keys|, HourlyData(out))
      else
        Ok(|results.Keys|, RawData(results))
  }

  /** Every device of `results` has a record, and it has a numeric timestamp, so
      `create_hourly_avg` keeps every device: both forms of the response report
      the same devices and the same count. */
  lemma AveragesKeepEveryDevice(arrivals: seq<Arrival>, filter: Option<string>, hourOf: real -> real)
    ensures HourlyAverages(Results(arrivals, filter), hourOf).Keys == Results(arrivals, filter).Keys
  {
    var m := Results(arrivals, filter);
    forall d | d in m ensures NumericCount(m[d]) > 0 {
      SelectedAllNumeric(arrivals, filter, d);
    }
  }

  lemma BothFormsCountTheSameDevices(avgParam: Option<string>, deviceParam: Option<string>, connection: Option<string>,
                                     blobs: seq<Blob>, hourOf: real -> real)
    requires connection.Some? && |connection.value| > 0
    ensures var resp := Respond(avgParam, deviceParam, connection, blobs, hourOf);
      resp.Ok? && resp.totalDevicesProcessed == |Results(Arrivals(blobs), DeviceFilter(deviceParam)).Keys|
  {
    AveragesKeepEveryDevice(Arrivals(blobs), DeviceFilter(deviceParam), hourOf);
  }
}
