/** The connection supervisor of the MQTT exporter as a transition system.

    Three goroutines work on the same small state: the message callback, the monitor and the session
    loop. One step is one critical section of the status mutex (or one channel operation), so a
    message may land between any two sections of a monitor tick. */
module Supervision {
  import opened Options
  import opened Arithmetic
  import opened Sequences

  // Durations and times are nanoseconds.
  const MAX_RECONNECT_DELAY := 600_000_000_000
  const RELOGIN_AFTER_RECONNECTS := 3

  datatype Config = Config(devices: set<string>, offlineThreshold: int) {
    predicate Valid() { offlineThreshold > 0 }

    /** Only messages of configured devices are processed. */
    predicate Accepts(sn: string) { sn != "" && sn in devices }
  }

  // ---------------------------------------------------------------------------
  // The state under the status mutex and the effect of each critical section
  // ---------------------------------------------------------------------------

  /** `nextReconnect` is `None` where the source has the zero time. */
  datatype Status = Status(
    lastReceived: map<string, int>,
    offlineSent: map<string, int>,
    reconnectDelay: int,
    nextReconnect: Option<int>,
    fruitlessReconnects: int)

  function NewStatus(): Status { Status(map[], map[], 0, None, 0) }

  function Receive(s: Status, sn: string, now: int): Status {
    Status(s.lastReceived[sn := now], s.offlineSent - {sn}, 0, None, 0)
  }

  /** Starts tracking the devices that were not heard of yet. */
  function Track(s: Status, devices: set<string>, now: int): Status {
    s.(lastReceived := (map sn | sn in devices :: now) + s.lastReceived)
  }

  function Silent(s: Status, threshold: int, now: int): set<string> {
    set sn | sn in s.lastReceived && now - s.lastReceived[sn] > threshold
  }

  predicate UpdateDue(s: Status, sn: string, threshold: int, now: int) {
    sn !in s.offlineSent || now - s.offlineSent[sn] >= threshold
  }

  function Due(s: Status, offline: set<string>, threshold: int, now: int): set<string> {
    set sn | sn in offline && UpdateDue(s, sn, threshold, now)
  }

  function Stamp(times: map<string, int>, sns: set<string>, now: int): map<string, int> {
    times + (map sn | sn in sns :: now)
  }

  function RecordOffline(s: Status, due: set<string>, now: int): Status {
    s.(offlineSent := Stamp(s.offlineSent, due, now))
  }

  predicate MayReconnect(s: Status, now: int) {
    s.nextReconnect.None? || now >= s.nextReconnect.value
  }

  function BackOff(s: Status, threshold: int, now: int): Status {
    var delay := Min(Max(2 * s.reconnectDelay, threshold), MAX_RECONNECT_DELAY);
    s.(reconnectDelay := delay, nextReconnect := Some(now + delay))
  }

  predicate LoginDue(s: Status) { s.fruitlessReconnects + 1 >= RELOGIN_AFTER_RECONNECTS }

  function CountReconnect(s: Status): Status {
    s.(fruitlessReconnects := if LoginDue(s) then 0 else s.fruitlessReconnects + 1)
  }

  /** The test that lets a monitor tick go on to a reconnect. */
  predicate AllOffline(c: Config, offline: set<string>) {
    |offline| > 0 && |offline| == |c.devices|
  }

  // ---------------------------------------------------------------------------
  // Steps and runs
  // ---------------------------------------------------------------------------

  /** Where the monitor stands within a tick. */
  datatype Phase = Idle | Recording(offline: set<string>) | Deciding | Counting | Requesting | Reconnecting

  datatype World = World(now: int, status: Status, phase: Phase, reloginPending: bool)

  /** One critical section each, with the outcome it computed. */
  datatype Event =
    | Message(sn: string, wasOffline: bool)  // the callback; wasOffline starts a full-state request
    | Connected                              // initDeviceStatuses
    | Snapshot(offline: set<string>)         // offlineDevices, the start of a tick
    | Record(due: set<string>)               // offlineUpdatesDue
    | Attempt(granted: bool)                 // reconnectDue
    | CountAttempt(login: bool)              // reloginDue
    | RequestRelogin
    | ForceReconnect
    | TakeRelogin                            // the session loop receives from the channel

  datatype Entry = Entry(at: int, event: Event)

  type Run = seq<Entry>

  predicate Enabled(c: Config, w: World, e: Entry) {
    && w.now <= e.at
    && match e.event
       case Message(sn, wasOffline) => wasOffline == (c.Accepts(sn) && sn in w.status.offlineSent)
       case Connected => true
       case Snapshot(offline) => w.phase.Idle? && offline == Silent(w.status, c.offlineThreshold, e.at)
       case Record(due) => w.phase.Recording? && due == Due(w.status, w.phase.offline, c.offlineThreshold, e.at)
       case Attempt(granted) => w.phase.Deciding? && granted == MayReconnect(w.status, e.at)
       case CountAttempt(login) => w.phase.Counting? && login == LoginDue(w.status)
       case RequestRelogin => w.phase.Requesting?
       case ForceReconnect => w.phase.Reconnecting?
       case TakeRelogin => w.reloginPending
  }

  function Next(c: Config, w: World, e: Entry): World
    requires Enabled(c, w, e)
  {
    var v := w.(now := e.at);
    match e.event
    case Message(sn, _) => if c.Accepts(sn) then v.(status := Receive(w.status, sn, e.at)) else v
    case Connected => v.(status := Track(w.status, c.devices, e.at))
    case Snapshot(offline) => v.(phase := Recording(offline))
    case Record(due) =>
      v.(status := RecordOffline(w.status, due, e.at),
      phase := if AllOffline(c, w.phase.offline) then Deciding else Idle)
    case Attempt(granted) =>
      if granted then v.(status := BackOff(w.status, c.offlineThreshold, e.at), phase := Counting)
      else v.(phase := Idle)
    case CountAttempt(login) =>
      v.(status := CountReconnect(w.status), phase := if login then Requesting else Reconnecting)
    case RequestRelogin => v.(phase := Idle, reloginPending := true)
    case ForceReconnect => v.(phase := Idle)
    case TakeRelogin => v.(reloginPending := false)
  }

  function Start(): World { World(0, NewStatus(), Idle, false) }

  predicate Legal(c: Config, r: Run)
    decreases |r|, 0
  {
    r == [] || (Legal(c, Init(r)) && Enabled(c, After(c, Init(r)), Last(r)))
  }

  function After(c: Config, r: Run): World
    requires Legal(c, r)
    decreases |r|, 1
  {
    if r == [] then Start() else Next(c, After(c, Init(r)), Last(r))
  }

  lemma {:induction false} LegalPrefix(c: Config, r: Run, n: nat)
    requires Legal(c, r) && n <= |r|
    ensures Legal(c, r[..n])
    ensures n < |r| ==> Legal(c, r[..n + 1]) && Enabled(c, After(c, r[..n]), r[n])
    ensures n < |r| ==> After(c, r[..n + 1]) == Next(c, After(c, r[..n]), r[n])
  {
    if n < |r| {
      LegalPrefix(c, Init(r), n);
      assert Init(r)[..n] == r[..n];
      assert Init(r[..n + 1]) == r[..n];
      if n == |r| - 1 {
        assert Init(r) == r[..n];
        assert r[..n + 1] == r;
      } else {
        LegalPrefix(c, Init(r), n + 1);
        assert Init(r)[..n + 1] == r[..n + 1];
      }
    } else {
      assert r[..n] == r;
    }
  }

  lemma {:induction false} TimesOrdered(c: Config, r: Run, i: nat, j: nat)
    requires Legal(c, r) && i <= j < |r|
    ensures r[i].at <= r[j].at <= After(c, r).now
  {
    if j == |r| - 1 {
      if i < j { TimesOrdered(c, Init(r), i, j - 1); }
    } else {
      TimesOrdered(c, Init(r), i, j);
    }
  }

  // ---------------------------------------------------------------------------
  // Continuing a run
  // ---------------------------------------------------------------------------

  predicate LegalFrom(c: Config, w: World, steps: Run)
    decreases |steps|
  {
    steps == [] || (Enabled(c, w, steps[0]) && LegalFrom(c, Next(c, w, steps[0]), steps[1..]))
  }

  function AfterFrom(c: Config, w: World, steps: Run): World
    requires LegalFrom(c, w, steps)
    decreases |steps|
  {
    if steps == [] then w else AfterFrom(c, Next(c, w, steps[0]), steps[1..])
  }

  lemma {:induction false} OneMore(c: Config, w: World, steps: Run, e: Entry)
    requires LegalFrom(c, w, steps) && Enabled(c, AfterFrom(c, w, steps), e)
    ensures LegalFrom(c, w, steps + [e])
    ensures AfterFrom(c, w, steps + [e]) == Next(c, AfterFrom(c, w, steps), e)
    decreases |steps|
  {
    if steps == [] {
      assert [e][1..] == [];
    } else {
      assert (steps + [e])[1..] == steps[1..] + [e];
      OneMore(c, Next(c, w, steps[0]), steps[1..], e);
    }
  }

  /** Steps taken from the end of a run make a longer run, so what holds of all runs holds of them. */
  lemma {:induction false} Continue(c: Config, r: Run, steps: Run)
    requires Legal(c, r) && LegalFrom(c, After(c, r), steps)
    ensures Legal(c, r + steps)
    ensures After(c, r + steps) == AfterFrom(c, After(c, r), steps)
    decreases |steps|
  {
    if steps == [] {
      assert r + steps == r;
    } else {
      var longer := r + [steps[0]];
      assert Init(longer) == r;
      Continue(c, longer, steps[1..]);
      assert longer + steps[1..] == r + steps;
    }
  }
}
