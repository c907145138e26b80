/** The per-device cache of the MQTT exporter on the heap, and the message callback around it. */
module DeviceCaching {
  import opened Options
  import opened Values
  import opened Supervision
  import opened StatusTracking
  import opened DeviceUpdates

  class DeviceCache {
    var deviceState: map<string, ParamMap>
    ghost var owned: set<ParamMap>      // the cached maps
    ghost var handedOut: set<ParamMap>  // the copies that handlers hold

    /** Devices do not share a map, and no handler holds a cached one. */
    ghost predicate Valid()
      reads this
    {
      && (forall sn | sn in deviceState :: deviceState[sn] in owned)
      && (forall a, b | a in deviceState && b in deviceState && a != b :: deviceState[a] != deviceState[b])
      && owned !! handedOut
    }

    /** What is cached for a device, nothing at first. */
    ghost function Cached(sn: string): Params
      requires Valid()
      reads this, owned
    {
      if sn in deviceState then deviceState[sn].entries else map[]
    }

    constructor ()
      ensures Valid() && owned == {} && handedOut == {}
      ensures forall sn :: Cached(sn) == map[]
    {
      deviceState, owned, handedOut := map[], {}, {};
    }

    /** Merges into the cached map in place and hands out a copy. Only the maps in `owned` may change,
        so copies handed out earlier keep their contents. */
    method Merge(sn: string, params: Params) returns (fullState: ParamMap)
      requires Valid()
      modifies this, owned
      ensures Valid() && fresh(owned - old(owned))
      ensures fresh(fullState) && handedOut == old(handedOut) + {fullState}
      ensures forall s :: Cached(s) == if s == sn then old(Cached(s)) + params else old(Cached(s))
      ensures fullState.entries == Cached(sn)
    {
      if sn !in deviceState { AddDevice(sn); }
      var state := deviceState[sn];
      state.entries := state.entries + params;
      fullState := new ParamMap(state.entries);
      handedOut := handedOut + {fullState};
    }

    method AddDevice(sn: string)
      requires Valid() && sn !in deviceState
      modifies this
      ensures Valid() && fresh(owned - old(owned)) && handedOut == old(handedOut)
      ensures sn in deviceState && forall s :: Cached(s) == old(Cached(s))
    {
      var empty := new ParamMap(map[]);
      deviceState := deviceState[sn := empty];
      owned := owned + {empty};
    }
  }

  type Messages = seq<(string, Params)>

  /** The later-wins merge of a device's own messages. */
  function Own(messages: Messages, sn: string): Params {
    if messages == [] then map[]
    else
      var before, last := Own(messages[..|messages| - 1], sn), messages[|messages| - 1];
      if last.0 == sn then before + last.1 else before
  }

  /** Any number of messages of any devices: the cache of a device is what its own messages make of it,
      and at the end every copy ever handed out still is what it was when its message was merged. */
  method MergeMany(messages: Messages) returns (cache: DeviceCache, copies: seq<ParamMap>)
    ensures fresh(cache) && cache.Valid()
    ensures forall sn :: cache.Cached(sn) == Own(messages, sn)
    ensures |copies| == |messages|
    ensures forall i | 0 <= i < |messages| :: copies[i].entries == Own(messages[..i + 1], messages[i].0)
  {
    cache := new DeviceCache();
    copies := [];
    ghost var merged: seq<Params> := [];
    var n := 0;
    while n < |messages|
      invariant 0 <= n <= |messages| && |copies| == |merged| == n
      invariant fresh(cache) && cache.Valid() && fresh(cache.owned)
      invariant forall sn :: cache.Cached(sn) == Own(messages[..n], sn)
      invariant forall i | 0 <= i < n :: copies[i] in cache.handedOut && copies[i].entries == merged[i]
      invariant forall i | 0 <= i < n :: merged[i] == Own(messages[..i + 1], messages[i].0)
    {
      var (sn, params) := messages[n];
      assert messages[..n + 1][..n] == messages[..n];
      var copy := cache.Merge(sn, params);
      copies, merged := copies + [copy], merged + [Own(messages[..n + 1], sn)];
      n := n + 1;
    }
    assert messages[..n] == messages;
  }

  class MessageCallback {
    const devices: map<string, string>  // serial number to display name
    const tracker: StatusTracker
    const cache: DeviceCache

    constructor (devices: map<string, string>, tracker: StatusTracker, cache: DeviceCache)
      ensures this.devices == devices && this.tracker == tracker && this.cache == cache
    {
      this.devices, this.tracker, this.cache := devices, tracker, cache;
    }

    /** `decoded` is what the decoders made of the payload, `None` on an error. A message of a configured
        device counts as a sign of life in any case; only a decoded one with parameters becomes an
        update, which carries the full state and not just what was sent. */
    method MessageHandler(sn: string, now: int, decoded: Option<Params>)
      returns (update: DeviceUpdate?, requestState: bool)
      requires cache.Valid() && tracker.devices == devices.Keys
      modifies tracker, cache, cache.owned
      ensures cache.Valid()
      ensures tracker.Shared() ==
              if tracker.Settings().Accepts(sn) then Receive(old(tracker.Shared()), sn, now) else old(tracker.Shared())
      ensures requestState == (tracker.Settings().Accepts(sn) && sn in old(tracker.offlineSent))
      ensures update != null <==>
                tracker.Settings().Accepts(sn) && decoded.Some? && decoded.value != map[]
      ensures forall s ::
                cache.Cached(s) == old(cache.Cached(s)) + if update != null && s == sn then decoded.value else map[]
      ensures update != null ==>
                && update.Valid() && update.device == Device(sn, devices[sn], 1)
                && fresh(update.params) && update.params.entries == cache.Cached(sn)
    {
      update := null;
      var accepted;
      accepted, requestState := tracker.MessageArrived(sn, now);
      assert forall s :: cache.Cached(s) == old(cache.Cached(s)) && cache.Cached(s) + map[] == cache.Cached(s);
      if accepted && decoded.Some? && |decoded.value| > 0 {
        update := Deliver(sn, decoded.value);
      }
    }

    method Deliver(sn: string, params: Params) returns (update: DeviceUpdate)
      requires cache.Valid() && sn in devices
      modifies cache, cache.owned
      ensures cache.Valid()
      ensures forall s :: cache.Cached(s) == if s == sn then old(cache.Cached(s)) + params else old(cache.Cached(s))
      ensures update.Valid() && update.device == Device(sn, devices[sn], 1)
      ensures fresh(update.params) && update.params.entries == cache.Cached(sn)
    {
      var fullState := cache.Merge(sn, params);
      update := new DeviceUpdate(Device(sn, devices[sn], 1), fullState);
    }
  }
}
