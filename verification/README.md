# Outage-buffering telemetry agent and hourly aggregator: a Dafny model

This project models two pieces of logic from a small IoT system.

The first is the simulated device's delivery loop (`simulate_temp_readings.py`).
Each tick takes a reading, logs it, and raises an alert when the temperature is above 35.
It then sends the message to the IoT hub. When sends fail with a transport error, the
loop opens an *outage episode*. The episode is keyed by the timestamp of its first
failure. Every failed message is buffered in the file `<time_stamp>.json`, which holds
`{"messages": [...]}`. The first successful send afterwards hands that file to the
uploader and removes it. The model also covers three helpers:

- the device-id scan of the connection string;
- the tick-interval default;
- the SAS URL built for the upload.

The second is the aggregator's HTTP function (`telemetryapi.py`):

- which decoded message bodies it keeps (device filter, numeric timestamp);
- how it groups a device's records by hour;
- how it turns each hour into an entry with two averages and a record count;
- how it reports the number of devices.

Modules:

- `Wrappers` (wrappers.dfy): `Option`.
- `ConnectionString` (connection_string.dfy): `extract_device_id`. A match of `DeviceId=([^;]+);` is described by `IsMatch`. `Search` is a left-to-right scan proved to find the leftmost match, as `re.search` does. A device id that is literally `Not found` looks the same as no match, as in the code.
- `Launch` (launch.dfy): the `--time_interval` defaulting rule.
- `BlobUrl` (blob_url.dfy): the SAS URL and a parser that inverts it.
- `Outage` (outage.dfy): the `network_outage` record, the file store, and `Tick`, one pass of the `while True` loop as a pure function. File, log and upload actions are recorded as `Effect`s.
- `OutageRun` (outage_run.dfy): `Run`, the loop folded over a sequence of ticks, and the lemmas about episodes, recovery, message conservation and alerts.
- `Hourly` (hourly.dfy): `group_timestamps_by_hour` and `create_hourly_avg`.
- `TelemetryApi` (telemetry_api.dfy): the line and blob handling of `http_trigger`, the keep rule, the `results` map and the response.

Inputs stand in for I/O. A tick's reading comes as a parameter, timestamp included, and
so does the outcome of `send_message` (`Sent`, `TransportFailure` for the exception list
at lines 165-173, or `Unexpected`). The working directory is a map from file name to
contents. A file's contents are either a parsed message list or `Unreadable`, which
stands for a read that raises `json.JSONDecodeError` or `IOError`, the two errors caught
at line 187. Other read errors are not modelled (see "Left out"). The hour of a timestamp depends on the local
time zone, so it is the parameter `hourOf`.

What the loop does, as modelled:

- `upload_file` returns nothing and swallows every exception, and the buffer file is
  removed as soon as it exists (lines 155-157). `Tick` removes it unconditionally and
  records only an `UploadAttempted` effect.
- The alert test is strict: `temperature > 35` (line 133).
- The loop has no reachability probe and no reconnect step. The outcome of each send is
  an input.
- Episode keys come from `time.time()`. The model treats timestamps as the text they
  print as and proves nothing about their order.
- The device filter is lowercased but compared with the stored id as it is. A device
  whose id has an upper-case letter therefore never matches a filter.
  `TelemetryApi.FilteredResults` states this.

## Model

| member | source | states |
|---|---|---|
| ConnectionString.Search | simulate_temp_readings.py:103 | The scan returns the leftmost start position where `DeviceId=` is followed by at least one non-`;` character and then a `;`, together with that `;`. It returns nothing when no position matches. |
| ConnectionString.ExtractDeviceId | simulate_temp_readings.py:102-105 | The result is non-empty and holds no `;`. With no match anywhere it is "Not found". Otherwise it is the text between the leftmost matching `DeviceId=` and the `;` that closes it. |
| Launch.TickInterval | simulate_temp_readings.py:53-62 | The interval is never 0. It is the flag's value when the flag is given and non-zero, and 3 when the flag is absent or 0. |
| BlobUrl.SasUrl | simulate_temp_readings.py:19 | The URL starts with `https://` and ends with `/?` followed by the SAS token. Its length is the four fields' lengths plus 12 fixed characters (`https://`, two `/` and `/?`). |
| BlobUrl.ParseSasUrl | simulate_temp_readings.py:19 | A URL accepted by the parser is exactly the `https://host/container/blob/?token` string built from the fields it returns, and none of host, container or blob contains `/`. |
| BlobUrl.SasUrlRoundTrip | simulate_temp_readings.py:19 | The URL built from fields whose host, container and blob hold no `/` parses back to exactly those four fields. |
| Outage.EpisodeFileName | simulate_temp_readings.py:209 | The time stamp can be read back from the file name, so two episodes with different time stamps use different files. |
| Outage.Tick | simulate_temp_readings.py:129-197 | There is one alert entry exactly when the temperature is above 35, whatever the outcome. A success marks the record connected and keeps its time stamp. A first failure sets the time stamp to this tick's and marks the record disconnected. Later failures leave the record unchanged. `Unexpected`, and a success while connected, change neither the record nor the store. Only the episode's file can change. The store stays consistent with the record. |
| Outage.TickNamesOneFile | simulate_temp_readings.py:152-193 | Every file the tick uploads, removes, reloads, writes or reports on is the episode's file `<time_stamp>.json`. |
| Outage.TickDeliversOnlyOnSend | simulate_temp_readings.py:146-148 | The reading is delivered live exactly when the send succeeded. |
| Outage.TickBuffersPayload | simulate_temp_readings.py:175-193 | After a transport failure the episode's file parses and ends with this tick's payload. It holds the earlier list plus the payload when the file existed and parsed. It holds only the payload after a first failure, a missing file or an unreadable file. |
| Outage.TickRecovers | simulate_temp_readings.py:152-160 | A success while disconnected uploads an existing episode file and then removes it, whatever the upload did. When the file is missing, the loss is logged and the store is unchanged. |
| OutageRun.Run | simulate_temp_readings.py:124-197 | From a state where a disconnected record always has a time stamp and a parsed file, every run of ticks ends in such a state. |
| OutageRun.FailureRunBuffersInOrder | simulate_temp_readings.py:175-193 | Starting connected, n failures in a row give an episode keyed by the first failure's timestamp. Exactly one file changes, and it holds all n payloads in arrival order. |
| OutageRun.RecoveryDrainsEpisode | simulate_temp_readings.py:152-163 | A run of failures followed by a success uploads the episode's file, holding all the run's payloads, and then removes it. The record ends connected. |
| OutageRun.RunForgetsClosedEpisode | simulate_temp_readings.py:152-181 | Two records that are both connected behave identically on any later run: same files, same effects, and the same record once an outage begins. So after a recovery the loop behaves as from a fresh start. |
| OutageRun.TickConserves | simulate_temp_readings.py:146-197 | In one tick, messages delivered live or handed to the uploader, plus messages still buffered, grow by exactly one, unless the tick ends in an unexpected error. |
| OutageRun.RunConserves | simulate_temp_readings.py:129-197 | Over any run from a consistent state, messages delivered live or handed to the uploader, plus messages still buffered, equal the messages buffered at the start plus every tick that did not end in an unexpected error. Each message is counted once. Whether an upload succeeded is not part of the count. |
| OutageRun.RunAlerts | simulate_temp_readings.py:133-134 | Over any run, the alert channel gets exactly one entry per tick whose temperature is above 35. |
| Hourly.Place | telemetryapi.py:20 | Appending to an hour's group extends that group, or adds a new group at the end when the hour is new. Other groups stay unchanged and the record total grows by one. |
| Hourly.GroupByHour | telemetryapi.py:13-21 | Hours are distinct. Each group is non-empty and holds exactly the records of its hour, in input order. Every hour that has a record gets a group. The groups hold exactly the records with a numeric timestamp. |
| Hourly.PlaceExtendsGrouping | telemetryapi.py:15-20 | Appending a record with a numeric timestamp to its hour's group turns a correct grouping of the earlier records into a correct grouping of all of them. |
| Hourly.AverageNAExactlyWhenAllNA | telemetryapi.py:37-46 | An hour's average of a field is 'N/A' exactly when every record of the hour has 'N/A' in that field. |
| Hourly.HourlyAverages | telemetryapi.py:23-58 | A device is in the output exactly when it has a record with a numeric timestamp. It then gets one entry per hour group. |
| Hourly.HourlyEntriesDescribeBuckets | telemetryapi.py:31-53 | A device with a numeric-timestamp record is in the output. Each entry's `data_points` is the size of its hour's (non-empty) group. Its averages are 'N/A' exactly when the group's records all lack the field. The `data_points` of a device sum to its count of numeric-timestamp records. |
| TelemetryApi.FirstFailure | telemetryapi.py:84-129 | The position of the first line whose decoding raises, or the line count when none does. No earlier line raises. |
| TelemetryApi.BodiesReached | telemetryapi.py:84-124 | The bodies taken from a blob are exactly the decoded lines before the first line whose decoding raises, in line order, each tagged with the blob's name. Blank, undecodable and body-less lines are skipped. |
| TelemetryApi.Arrivals | telemetryapi.py:77-83 | Only blobs whose name ends in `.json` contribute records. |
| TelemetryApi.ArrivalsConcat | telemetryapi.py:77-83 | The records of a listing are those of each blob in listing order: a `.json` blob contributes its reached bodies, any other blob nothing. |
| TelemetryApi.DeviceFilter | telemetryapi.py:66-67 | There is a filter exactly when the parameter is given and non-empty. The filter is then the parameter with each ASCII upper-case letter lowercased, so it has the parameter's length and no upper-case letter. |
| TelemetryApi.Results | telemetryapi.py:109-119 | A device is in `results` exactly when some kept body carries its id. It then holds exactly its kept records, in arrival order. A body is kept when the filter is absent or equals the raw id, and the timestamp is numeric. |
| TelemetryApi.SelectedAllNumeric | telemetryapi.py:113-119 | Every record kept for a device has a numeric timestamp. |
| TelemetryApi.FilteredResults | telemetryapi.py:109-110 | With a filter, `results` holds at most the lowercased filter's device. It never holds an id with an upper-case letter. |
| TelemetryApi.Respond | telemetryapi.py:65-146 | A missing or empty connection string gives the 500 response. Otherwise `data` is the kept records of each device, or their hourly averages exactly when `avg` lowercases to "yes", and `total_devices_processed` is the number of devices in `data`. |
| TelemetryApi.AveragesKeepEveryDevice | telemetryapi.py:134-146 | `create_hourly_avg` keeps every device of `results`, because each has a record with a numeric timestamp. |
| TelemetryApi.BothFormsCountTheSameDevices | telemetryapi.py:134-146 | `total_devices_processed` is the number of devices in `results`, whether or not averages were asked for. |

## Left out

- Azure SDK calls (`IoTHubDeviceClient`, `Message`, `get_storage_info_for_blob`, `BlobClient`, `BlobServiceClient`) are foreign libraries. A send's result is the `Outcome` input. An upload is the `UploadAttempted` effect. The storage information is the `BlobInfo` value.
- File and JSON I/O are replaced by a map from file name to contents. `os.path.exists` is map membership and `os.remove` is key removal.
- An exception raised inside the failure handler, other than the `json.JSONDecodeError` and `IOError` caught at line 187, is not modelled. Examples are a `UnicodeDecodeError` while reading the file, a file without a `"messages"` list (line 192), and a write error while rewriting the file (line 209). Each escapes the handler and ends the loop.
- Messages of an upload that fails are lost. `store_blob` returns `False` on failure (lines 24-26), `upload_file` ignores that result and swallows every exception (lines 46 and 50-51), and the file is removed anyway (line 157). `OutageRun.RunConserves` counts a message as handed on once it reaches the uploader, and states nothing about what the upload did.
- Hourly.GroupByHour: the groups are built in the order their hours first appear; the contract states what each group holds, not that order.
- BlobUrl.SasUrlRoundTrip: covers only blob names without `/`. Hub-assigned names of the form `<device>/<file>` are not covered by the round trip.
- An `OSError` from `os.remove` is not modelled. The file was just seen to exist.
- `time.time`, `time.sleep` and the random readings are not modelled. Readings and timestamps are inputs. A timestamp is the text Python prints for it, because the loop only copies it into the payload and the file name.
- A negative `--time_interval` is accepted by `TickInterval` like the code accepts it. The `ValueError` that `time.sleep` then raises is not modelled.
- The startup and shutdown path of `main` is not modelled. `CONNECTION_STRING` is commented out (line 14), so that path fails with `NameError`. The tick is modelled as if a credential were present.
- Logging setup and rotation, argparse mechanics, and the HTTP and Azure Functions plumbing are not modelled. Log lines appear only as effects.
- The payload's `str(dict)` text and the aggregator's base64 and `literal_eval` decoding are not modelled. The simulator's payload is the `Message` datatype and the aggregator's decoded body is the `Body` datatype. No round trip between the two is stated.
- The float values of the averages are not modelled. `Average` records only whether the average is 'N/A' or how many samples it averages. `float()` on a non-numeric field raises in the code; that case is not modelled.
- `datetime.fromtimestamp` hour bucketing and the `isoformat` text are not modelled. The hour is the parameter `hourOf`, and the entry keeps the hour value.
- `str.lower()` is modelled on ASCII letters only.
- Device ids in the aggregator are strings. Non-string ids that `literal_eval` could produce are not modelled.
