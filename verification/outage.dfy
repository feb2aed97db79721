/**
 One pass of the simulator's delivery loop (the body of `while True` in `main`):
 take a reading, log it, raise an alert when it is too hot, then act on the
 outcome of `client.send_message`.

 - `Sent`: if an outage was in progress, the episode's buffer file is handed to
   the uploader and then removed (the upload's own result is never looked at);
   if the file is gone, the loss is logged. The episode is marked connected.
 - `TransportFailure` (one of the connection/OS/timeout exceptions): the first
   failure of a run opens an episode keyed by this tick's timestamp and starts an
   empty message list; a later failure reloads the episode's file, falling back to
   an empty list when the file is missing or unreadable. The payload is appended
   and the file rewritten.
 - `Unexpected` (any other exception): logged, nothing else changes.

 The file system is a map from file name to contents; logging, uploading and
 writing are recorded as `Effect`s.
 */
module Outage {
  import opened Wrappers

  /** Temperatures strictly above this raise an alert. */
  const AlertThreshold: real := 35.0

  /** One simulated sample. `timeStamp` is the text Python prints for the
      `time.time()` value: the loop only copies it into the payload and into a
      file name, so its numeric value plays no part. */
  datatype Reading = Reading(temperature: real, humidity: real, timeStamp: string)

  /** The payload of one telemetry message: the dict whose `str()` form is both
      sent live and buffered. */
  datatype Message = Message(temperature: real, humidity: real, timestamp: string, deviceId: string)

  function MessageOf(deviceId: string, r: Reading): Message {
    Message(r.temperature, r.humidity, r.timeStamp, deviceId)
  }

  /** The `network_outage` record: when the current episode started, and whether
      the last send went through. */
  datatype OutageState = OutageState(timeStamp: Option<string>, isConnected: bool)

  /** `{"time_stamp": None, "is_connected": True}` */
  const Start: OutageState := OutageState(None, true)

  /** What a buffer file holds: a parsed `{"messages": [...]}` document, or
      something `json.load` rejects (or an I/O error reading it). */
  datatype FileContent = Buffered(messages: seq<Message>) | Unreadable

  /** The working directory: file name to contents. */
  type Store = map<string, FileContent>

  /** How `client.send_message` ended on this tick. */
  datatype Outcome = Sent | TransportFailure | Unexpected

  /** What a tick does besides changing the state and the store. */
  datatype Effect =
    | AlertLogged
    | TelemetryLogged(temperature: real, humidity: real)
    | Delivered(message: Message)
    | UploadAttempted(file: string, content: FileContent)
    | FileRemoved(file: string)
    | LossReported(file: string)
    | ReadErrorReported(file: string)
    | MissingFileReported(file: string)
    | FileWritten(file: string, messages: seq<Message>)
    | UnexpectedReported

  /** The file an effect refers to, if any. */
  function FileOf(e: Effect): Option<string> {
    match e
    case UploadAttempted(f, _) => Some(f)
    case FileRemoved(f) => Some(f)
    case LossReported(f) => Some(f)
    case ReadErrorReported(f) => Some(f)
    case MissingFileReported(f) => Some(f)
    case FileWritten(f, _) => Some(f)
    case _ => None
  }

  /** The state, store and effects after a tick (or a run of ticks). */
  datatype Step = Step(state: OutageState, store: Store, effects: seq<Effect>)

  /** `f"{x}"` for the episode's time stamp: `None` prints as "None". */
  function StampText(t: Option<string>): string {
    match t
    case None => "None"
    case Some(x) => x
  }

  /** `f"{time_stamp}.json"`, the one name used for an episode's buffer file at
      upload, at the recovery check, at reload and at rewrite. */
  function EpisodeFileName(stamp: string): (name: string)
    ensures StampOfFileName(name) == Some(stamp)
  {
    assert (stamp + ".json")[..|stamp|] == stamp;
    stamp + ".json"
  }

  /** Recovers the time stamp from a buffer file name. */
  function StampOfFileName(name: string): Option<string> {
    if |name| >= 5 && name[|name| - 5..] == ".json" then Some(name[..|name| - 5]) else None
  }

  /** Different episodes' time stamps give different file names. */
  lemma EpisodeFileNameInjective(a: string, b: string)
    requires EpisodeFileName(a) == EpisodeFileName(b)
    ensures a == b
  {
    assert StampOfFileName(EpisodeFileName(a)) == Some(a);
  }

  /** The buffer file of the episode `s` records. */
  function EpisodeFile(s: OutageState): string {
    EpisodeFileName(StampText(s.timeStamp))
  }

  /** The two stores agree everywhere except possibly at `f`. */
  ghost predicate AgreeExcept(a: Store, b: Store, f: string) {
    forall g :: g != f ==> (g in a <==> g in b) && (g in a ==> a[g] == b[g])
  }

  /** While disconnected, the episode has a time stamp and its buffer file exists
      and parses: what every run of the loop keeps true, since only the loop
      writes to the store. */
  ghost predicate Consistent(s: OutageState, store: Store) {
    !s.isConnected ==>
      s.timeStamp.Some? && EpisodeFile(s) in store && store[EpisodeFile(s)].Buffered?
  }

  /** `effs[i]` is the upload of `f` with contents `c`, and a later effect removes `f`. */
  ghost predicate UploadThenRemove(effs: seq<Effect>, f: string, c: FileContent) {
    exists i, j :: 0 <= i < j < |effs| && effs[i] == UploadAttempted(f, c) && effs[j] == FileRemoved(f)
  }

  /** The alert channel entry, written before anything else happens. */
  function AlertEffects(r: Reading): seq<Effect> {
    if r.temperature > AlertThreshold then [AlertLogged] else []
  }

  /** The recovery block run after a successful send. */
  function Recover(s: OutageState, store: Store): (r: (Store, seq<Effect>))
    ensures forall e :: e in r.1 ==> FileOf(e).Some?
  {
    if s.isConnected then (store, [])
    else
      var f := EpisodeFile(s);
      if f in store then (store - {f}, [UploadAttempted(f, store[f]), FileRemoved(f)])
      else (store, [LossReported(f)])
  }

  /** The existing message list of the episode's file, or the empty list (with
      the error it logs) when the file is missing or unreadable. */
  function LoadOrEmpty(store: Store, f: string): (seq<Message>, seq<Effect>) {
    if f !in store then ([], [MissingFileReported(f)])
    else
      match store[f]
      case Buffered(ms) => (ms, [])
      case Unreadable => ([], [ReadErrorReported(f)])
  }

  /** The failure handler: open or continue the episode, then rewrite its file
      with the message appended. */
  function BufferFailure(s: OutageState, store: Store, m: Message, now: string): (t: Step)
    ensures forall e :: e in t.effects ==> FileOf(e).Some?
  {
    var (s', prior, notes) :=
      if s.isConnected then (OutageState(Some(now), false), [], [])
      else
        var (ms, notes) := LoadOrEmpty(store, EpisodeFile(s));
        (s, ms, notes);
    var f := EpisodeFile(s');
    Step(s', store[f := Buffered(prior + [m])], notes + [FileWritten(f, prior + [m])])
  }

  /** The sum of `weight` over `effs`: how the model counts log entries and messages. */
  function Tally(effs: seq<Effect>, weight: Effect -> nat): nat {
    if |effs| == 0 then 0 else weight(effs[0]) + Tally(effs[1..], weight)
  }

  lemma {:induction false} TallyConcat(a: seq<Effect>, b: seq<Effect>, weight: Effect -> nat)
    ensures Tally(a + b, weight) == Tally(a, weight) + Tally(b, weight)
  {
    if |a| == 0 {
      assert a + b == b;
    } else {
      assert (a + b)[1..] == a[1..] + b;
      TallyConcat(a[1..], b, weight);
    }
  }

  lemma TallySingle(e: Effect, weight: Effect -> nat)
    ensures Tally([e], weight) == weight(e)
  {
    assert [e][1..] == [];
  }

  function AlertWeight(e: Effect): nat {
    if e.AlertLogged? then 1 else 0
  }

  /** The number of alert-channel entries among `effs`. */
  function AlertCount(effs: seq<Effect>): nat {
    Tally(effs, AlertWeight)
  }

  lemma AlertCountConcat(a: seq<Effect>, b: seq<Effect>)
    ensures AlertCount(a + b) == AlertCount(a) + AlertCount(b)
  {
    TallyConcat(a, b, AlertWeight);
  }

  lemma {:induction false} NoAlertAmongFileEffects(effs: seq<Effect>)
    requires forall e :: e in effs ==> FileOf(e).Some?
    ensures AlertCount(effs) == 0
  {
    if |effs| > 0 {
      assert effs[0] in effs;
      NoAlertAmongFileEffects(effs[1..]);
    }
  }

  /** One iteration of the loop for device `deviceId`. */
  function Tick(deviceId: string, s: OutageState, store: Store, r: Reading, o: Outcome): (t: Step)
    // an alert entry exactly when the reading is too hot, whatever the outcome
    ensures AlertCount(t.effects) == (if r.temperature > AlertThreshold then 1 else 0)
    // how the outage record moves
    ensures o == Sent ==> t.state == OutageState(s.timeStamp, true)
    ensures o == TransportFailure && s.isConnected ==> t.state == OutageState(Some(r.timeStamp), false)
    ensures o == TransportFailure && !s.isConnected ==> t.state == s
    ensures o == Unexpected ==> t.state == s && t.store == store
    ensures o == Sent && s.isConnected ==> t.store == store
    // only the episode's own file can change
    ensures AgreeExcept(store, t.store, EpisodeFile(t.state))
    // every outcome keeps the store consistent with the outage record
    ensures Consistent(s, store) ==> Consistent(t.state, t.store)
  {
    var m := MessageOf(deviceId, r);
    var pre := AlertEffects(r) + [TelemetryLogged(r.temperature, r.humidity)];
    assert AlertCount(pre) == (if r.temperature > AlertThreshold then 1 else 0) by {
      AlertCountConcat(AlertEffects(r), [TelemetryLogged(r.temperature, r.humidity)]);
      TallySingle(AlertLogged, AlertWeight);
      TallySingle(TelemetryLogged(r.temperature, r.humidity), AlertWeight);
    }
    match o
    case Sent =>
      var (store', notes) := Recover(s, store);
      assert AlertCount(pre + [Delivered(m)] + notes) == AlertCount(pre) by {
        AlertCountConcat(pre, [Delivered(m)]);
        AlertCountConcat(pre + [Delivered(m)], notes);
        NoAlertAmongFileEffects(notes);
        TallySingle(Delivered(m), AlertWeight);
      }
      Step(OutageState(s.timeStamp, true), store', pre + [Delivered(m)] + notes)
    case TransportFailure =>
      var b := BufferFailure(s, store, m, r.timeStamp);
      AlertCountConcat(pre, b.effects);
      NoAlertAmongFileEffects(b.effects);
      Step(b.state, b.store, pre + b.effects)
    case Unexpected =>
      AlertCountConcat(pre, [UnexpectedReported]);
      TallySingle(UnexpectedReported, AlertWeight);
      Step(s, store, pre + [UnexpectedReported])
  }

  /** Every file a tick logs, uploads, removes or writes is the episode's file. */
  lemma TickNamesOneFile(deviceId: string, s: OutageState, store: Store, r: Reading, o: Outcome)
    ensures var t := Tick(deviceId, s, store, r, o);
      forall e :: e in t.effects ==> FileOf(e) == None || FileOf(e) == Some(EpisodeFile(t.state))
  {
    var t := Tick(deviceId, s, store, r, o);
    var pre := AlertEffects(r) + [TelemetryLogged(r.temperature, r.humidity)];
    assert forall e :: e in pre ==> FileOf(e) == None;
    match o
    case Sent =>
      assert t.effects == pre + [Delivered(MessageOf(deviceId, r))] + Recover(s, store).1;
    case TransportFailure =>
      assert t.effects == pre + BufferFailure(s, store, MessageOf(deviceId, r), r.timeStamp).effects;
    case Unexpected =>
      assert t.effects == pre + [UnexpectedReported];
  }

  /** The reading is delivered live exactly when the send succeeded. */
  lemma TickDeliversOnlyOnSend(deviceId: string, s: OutageState, store: Store, r: Reading, o: Outcome)
    ensures Delivered(MessageOf(deviceId, r)) in Tick(deviceId, s, store, r, o).effects <==> o == Sent
  {
    var t := Tick(deviceId, s, store, r, o);
    var m := MessageOf(deviceId, r);
    var pre := AlertEffects(r) + [TelemetryLogged(r.temperature, r.humidity)];
    assert Delivered(m) !in pre;
    match o
    case Sent =>
      assert t.effects == pre + [Delivered(m)] + Recover(s, store).1;
      assert Delivered(m) in pre + [Delivered(m)];
    case TransportFailure =>
      assert t.effects == pre + BufferFailure(s, store, m, r.timeStamp).effects;
    case Unexpected =>
      assert t.effects == pre + [UnexpectedReported];
  }

  /** After a transport failure the episode's file parses and ends with this
      tick's payload; before it come the earlier messages when the file was
      there and parsed, and nothing on a first failure or when the file was
      missing or unreadable. */
  lemma TickBuffersPayload(deviceId: string, s: OutageState, store: Store, r: Reading)
    ensures var t := Tick(deviceId, s, store, r, TransportFailure);
      var f := EpisodeFile(t.state);
      var m := MessageOf(deviceId, r);
      && f in t.store && t.store[f].Buffered?
      && |t.store[f].messages| > 0 && t.store[f].messages[|t.store[f].messages| - 1] == m
      && (!s.isConnected && f in store && store[f].Buffered? ==> t.store[f].messages == store[f].messages + [m])
      && (s.isConnected || f !in store || store[f].Unreadable? ==> t.store[f].messages == [m])
  {
  }

  /** A successful send that ends an outage uploads the episode's file and then
      removes it, whatever the upload did; when the file is gone it logs the
      loss and removes nothing. */
  lemma TickRecovers(deviceId: string, s: OutageState, store: Store, r: Reading)
    requires !s.isConnected
    ensures var t := Tick(deviceId, s, store, r, Sent);
      var f := EpisodeFile(s);
      && (f in store ==> f !in t.store && UploadThenRemove(t.effects, f, store[f]))
      && (f !in store ==> t.store == store && LossReported(f) in t.effects)
  {
    var t := Tick(deviceId, s, store, r, Sent);
    var f := EpisodeFile(s);
    var k := |AlertEffects(r)| + 2;
    if f in store {
      assert t.effects[k] == UploadAttempted(f, store[f]);
      assert t.effects[k + 1] == FileRemoved(f);
    }
  }
}
