/**
 The delivery loop as a fold of `Tick` over a sequence of ticks, and what it
 guarantees across ticks: a run of failures fills one file in arrival order,
 the next successful send hands that file to the uploader and removes it,
 every message is either delivered live, handed to the uploader or still
 buffered (except on an unexpected error), and alerts follow the readings.
 Whether an upload succeeded is never looked at, so the messages of an upload
 that failed are gone once the file is removed.
 */
module OutageRun {
  import opened Wrappers
  import opened Outage

  /** The inputs of one tick: the sample taken and how its send ended. */
  datatype Event = Event(reading: Reading, outcome: Outcome)

  /** The loop run over `events` from state `s` and store `store`; the effects
      of all ticks in order. */
  function Run(deviceId: string, s: OutageState, store: Store, events: seq<Event>): (t: Step)
    ensures Consistent(s, store) ==> Consistent(t.state, t.store)
    decreases |events|
  {
    if |events| == 0 then Step(s, store, [])
    else
      var before := Run(deviceId, s, store, events[..|events| - 1]);
      var e := events[|events| - 1];
      var t := Tick(deviceId, before.state, before.store, e.reading, e.outcome);
      Step(t.state, t.store, before.effects + t.effects)
  }

  /** The payloads the ticks of `events` produce, in order. */
  function Payloads(deviceId: string, events: seq<Event>): seq<Message>
    decreases |events|
  {
    if |events| == 0 then []
    else Payloads(deviceId, events[..|events| - 1]) + [MessageOf(deviceId, events[|events| - 1].reading)]
  }

  ghost predicate AllFail(events: seq<Event>) {
    forall i :: 0 <= i < |events| ==> events[i].outcome == TransportFailure
  }

  /** Starting connected, a run of transport failures opens one episode keyed by
      the first failure's timestamp and leaves exactly one file changed, holding
      every payload of the run in arrival order. */
  lemma {:induction false} FailureRunBuffersInOrder(deviceId: string, s: OutageState, store: Store, events: seq<Event>)
    requires s.isConnected && |events| > 0 && AllFail(events)
    ensures var t := Run(deviceId, s, store, events);
      var stamp := events[0].reading.timeStamp;
      && t.state == OutageState(Some(stamp), false)
      && t.store == store[EpisodeFileName(stamp) := Buffered(Payloads(deviceId, events))]
  {
    var n := |events|;
    var prefix := events[..n - 1];
    var e := events[n - 1];
    var stamp := events[0].reading.timeStamp;
    var f := EpisodeFileName(stamp);
    var before := Run(deviceId, s, store, prefix);
    var t := Tick(deviceId, before.state, before.store, e.reading, e.outcome);
    assert e.outcome == TransportFailure;
    if n == 1 {
      assert prefix == [];
      assert Payloads(deviceId, prefix) == [];
      TickBuffersPayload(deviceId, before.state, before.store, e.reading);
      assert t.store == store[f := Buffered(Payloads(deviceId, events))];
    } else {
      assert AllFail(prefix) by {
        forall i | 0 <= i < |prefix| ensures prefix[i].outcome == TransportFailure {
          assert prefix[i] == events[i];
        }
      }
      assert prefix[0] == events[0];
      FailureRunBuffersInOrder(deviceId, s, store, prefix);
      TickBuffersPayload(deviceId, before.state, before.store, e.reading);
      assert EpisodeFile(before.state) == f;
      assert t.store[f] == Buffered(Payloads(deviceId, events));
      assert t.store == store[f := Buffered(Payloads(deviceId, events))];
    }
  }

  lemma UploadThenRemoveLater(a: seq<Effect>, b: seq<Effect>, f: string, c: FileContent)
    requires UploadThenRemove(b, f, c)
    ensures UploadThenRemove(a + b, f, c)
  {
    var i, j :| 0 <= i < j < |b| && b[i] == UploadAttempted(f, c) && b[j] == FileRemoved(f);
    assert (a + b)[|a| + i] == UploadAttempted(f, c);
    assert (a + b)[|a| + j] == FileRemoved(f);
  }

  /** A run of failures followed by a successful send ends the episode: the
      episode's file, holding the whole run's payloads, is uploaded and then
      removed, and the record is connected again with the old time stamp. */
  lemma RecoveryDrainsEpisode(deviceId: string, s: OutageState, store: Store, fails: seq<Event>, r: Reading)
    requires s.isConnected && |fails| > 0 && AllFail(fails)
    ensures var t := Run(deviceId, s, store, fails + [Event(r, Sent)]);
      var stamp := fails[0].reading.timeStamp;
      var f := EpisodeFileName(stamp);
      && t.state == OutageState(Some(stamp), true)
      && t.store == store - {f}
      && UploadThenRemove(t.effects, f, Buffered(Payloads(deviceId, fails)))
  {
    var events := fails + [Event(r, Sent)];
    assert events[..|events| - 1] == fails;
    var stamp := fails[0].reading.timeStamp;
    var f := EpisodeFileName(stamp);
    FailureRunBuffersInOrder(deviceId, s, store, fails);
    var before := Run(deviceId, s, store, fails);
    TickRecovers(deviceId, before.state, before.store, r);
    var t := Tick(deviceId, before.state, before.store, r, Sent);
    UploadThenRemoveLater(before.effects, t.effects, f, Buffered(Payloads(deviceId, fails)));
    assert t.store == store - {f};
  }

  /** Once connected, the time stamp of a closed episode has no influence: two
      records that agree on connectivity, and on everything while disconnected,
      behave the same from then on. */
  ghost predicate SameEpisode(a: OutageState, b: OutageState) {
    a.isConnected == b.isConnected && (!a.isConnected ==> a == b)
  }

  lemma TickForgetsClosedEpisode(deviceId: string, a: OutageState, b: OutageState, store: Store, r: Reading, o: Outcome)
    requires SameEpisode(a, b)
    ensures var ta := Tick(deviceId, a, store, r, o);
      var tb := Tick(deviceId, b, store, r, o);
      SameEpisode(ta.state, tb.state) && ta.store == tb.store && ta.effects == tb.effects
  {
  }

  /** After a recovery the loop behaves exactly as it does from a fresh start:
      the same files, the same effects, and the same outage record as soon as an
      outage begins. */
  lemma {:induction false} RunForgetsClosedEpisode(deviceId: string, a: OutageState, b: OutageState, store: Store, events: seq<Event>)
    requires SameEpisode(a, b)
    ensures var ta := Run(deviceId, a, store, events);
      var tb := Run(deviceId, b, store, events);
      SameEpisode(ta.state, tb.state) && ta.store == tb.store && ta.effects == tb.effects
    decreases |events|
  {
    if |events| > 0 {
      var prefix := events[..|events| - 1];
      var e := events[|events| - 1];
      RunForgetsClosedEpisode(deviceId, a, b, store, prefix);
      var pa := Run(deviceId, a, store, prefix);
      var pb := Run(deviceId, b, store, prefix);
      TickForgetsClosedEpisode(deviceId, pa.state, pb.state, pa.store, e.reading, e.outcome);
    }
  }

  /** Messages a list of effects hands on: one per live delivery, and every
      message of each buffer file given to the uploader, whatever the upload
      then did. */
  function HandedWeight(e: Effect): nat {
    match e
    case Delivered(_) => 1
    case UploadAttempted(_, Buffered(ms)) => |ms|
    case _ => 0
  }

  function Handed(effs: seq<Effect>): nat {
    Tally(effs, HandedWeight)
  }

  /** Messages waiting in the current episode's buffer file. */
  function Pending(s: OutageState, store: Store): nat {
    var f := EpisodeFile(s);
    if !s.isConnected && f in store && store[f].Buffered? then |store[f].messages| else 0
  }

  /** Ticks whose message the loop takes care of: all but the unexpected errors. */
  function Attempts(events: seq<Event>): nat
    decreases |events|
  {
    if |events| == 0 then 0
    else Attempts(events[..|events| - 1]) + (if events[|events| - 1].outcome == Unexpected then 0 else 1)
  }

  /** Per tick, a message is either delivered live or added to the buffer,
      and a recovery hands the uploader exactly what the buffer held. */
  lemma TickConserves(deviceId: string, s: OutageState, store: Store, r: Reading, o: Outcome)
    requires Consistent(s, store)
    ensures var t := Tick(deviceId, s, store, r, o);
      Handed(t.effects) + Pending(t.state, t.store) == Pending(s, store) + (if o == Unexpected then 0 else 1)
  {
    var t := Tick(deviceId, s, store, r, o);
    var m := MessageOf(deviceId, r);
    var pre := AlertEffects(r) + [TelemetryLogged(r.temperature, r.humidity)];
    assert Handed(pre) == 0 by {
      TallyConcat(AlertEffects(r), [TelemetryLogged(r.temperature, r.humidity)], HandedWeight);
      TallySingle(AlertLogged, HandedWeight);
      TallySingle(TelemetryLogged(r.temperature, r.humidity), HandedWeight);
    }
    match o
    case Sent =>
      var notes := Recover(s, store).1;
      assert t.effects == pre + [Delivered(m)] + notes;
      TallyConcat(pre, [Delivered(m)], HandedWeight);
      TallyConcat(pre + [Delivered(m)], notes, HandedWeight);
      TallySingle(Delivered(m), HandedWeight);
      if !s.isConnected {
        var f := EpisodeFile(s);
        assert notes == [UploadAttempted(f, store[f]), FileRemoved(f)];
        TallyConcat([UploadAttempted(f, store[f])], [FileRemoved(f)], HandedWeight);
        TallySingle(UploadAttempted(f, store[f]), HandedWeight);
        TallySingle(FileRemoved(f), HandedWeight);
      }
    case TransportFailure =>
      var b := BufferFailure(s, store, m, r.timeStamp);
      assert t.effects == pre + b.effects;
      TallyConcat(pre, b.effects, HandedWeight);
      NoHandOffAmongFileWrites(b.effects);
      TickBuffersPayload(deviceId, s, store, r);
    case Unexpected =>
      assert t.effects == pre + [UnexpectedReported];
      TallyConcat(pre, [UnexpectedReported], HandedWeight);
      TallySingle(UnexpectedReported, HandedWeight);
  }

  lemma {:induction false} NoHandOffAmongFileWrites(effs: seq<Effect>)
    requires forall e :: e in effs ==> FileOf(e).Some? && !e.UploadAttempted?
    ensures Handed(effs) == 0
  {
    if |effs| > 0 {
      assert effs[0] in effs;
      NoHandOffAmongFileWrites(effs[1..]);
    }
  }

  /** Every message is accounted for once: over any run from a consistent
      state, messages delivered live or handed to the uploader, plus messages
      still buffered, equal those
      buffered at the start plus every tick that did not end in an unexpected
      error. */
  lemma {:induction false} RunConserves(deviceId: string, s: OutageState, store: Store, events: seq<Event>)
    requires Consistent(s, store)
    ensures var t := Run(deviceId, s, store, events);
      Handed(t.effects) + Pending(t.state, t.store) == Pending(s, store) + Attempts(events)
    decreases |events|
  {
    if |events| > 0 {
      var prefix := events[..|events| - 1];
      var e := events[|events| - 1];
      RunConserves(deviceId, s, store, prefix);
      var before := Run(deviceId, s, store, prefix);
      TickConserves(deviceId, before.state, before.store, e.reading, e.outcome);
      var t := Tick(deviceId, before.state, before.store, e.reading, e.outcome);
      TallyConcat(before.effects, t.effects, HandedWeight);
    }
  }

  /** Ticks whose reading is above the alert threshold. */
  function HotTicks(events: seq<Event>): nat
    decreases |events|
  {
    if |events| == 0 then 0
    else HotTicks(events[..|events| - 1]) + (if events[|events| - 1].reading.temperature > AlertThreshold then 1 else 0)
  }

  /** The alert channel gets one entry per hot tick over any run. */
  lemma {:induction false} RunAlerts(deviceId: string, s: OutageState, store: Store, events: seq<Event>)
    ensures AlertCount(Run(deviceId, s, store, events).effects) == HotTicks(events)
    decreases |events|
  {
    if |events| > 0 {
      var prefix := events[..|events| - 1];
      var e := events[|events| - 1];
      RunAlerts(deviceId, s, store, prefix);
      var before := Run(deviceId, s, store, prefix);
      var t := Tick(deviceId, before.state, before.store, e.reading, e.outcome);
      AlertCountConcat(before.effects, t.effects);
    }
  }
}
