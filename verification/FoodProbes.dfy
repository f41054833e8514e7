/** The ADS1115 acquisition sequencer against converters that may fail any call. */
module FoodProbes {
  import opened Bytes
  import opened Domain

  datatype DeviceConfig = DeviceConfig(
    port: int, sda: int, scl: int, clockHz: u32, pullup: byte, address: byte)

  datatype Channel = Channel(probe: byte, device: nat, mux: byte, gain: byte, rate: byte)

  datatype Acquisition = Acquisition(devices: seq<DeviceConfig>, channels: seq<Channel>, timeout: int, maximumAge: int)

  // ---------------------------------------------------------------- configuration

  const MAXIMUM_DEVICES := 2
  const FOREVER := 0x7FFF_FFFF_FFFF_FFFF

  /** Zero for a code that names no data rate. */
  function SamplesPerSecond(rate: byte): nat {
    match rate
    case 0 => 8 case 1 => 16 case 2 => 32 case 3 => 64 case 4 => 128 case 5 => 250 case 6 => 475 case 7 => 860
    case _ => 0
  }

  /** The least number of milliseconds that covers one conversion at the slowest tolerated rate. */
  function MinimumTimeout(rate: byte): (ms: nat)
    ensures SamplesPerSecond(rate) > 0 ==>
              ms * 9 * SamplesPerSecond(rate) >= 10000 && (ms - 1) * 9 * SamplesPerSecond(rate) < 10000
    ensures SamplesPerSecond(rate) == 0 ==> ms == FOREVER
  {
    var r := SamplesPerSecond(rate);
    if r == 0 then FOREVER
    else
      var d := 9 * r;
      CeilingDivision(10000, d);
      (10000 + d - 1) / d
  }

  lemma CeilingDivision(n: nat, d: nat)
    requires d > 0
    ensures var q := (n + d - 1) / d; q * d >= n && (q - 1) * d < n
  {
  }

  predicate ValidDevice(d: DeviceConfig) {
    d.port >= 0 && d.sda >= 0 && d.scl >= 0 && d.sda != d.scl
    && 10_000 <= d.clockHz <= 1_000_000 && d.pullup <= 1 && 0x48 <= d.address <= 0x4b
  }

  predicate CompatiblePair(a: DeviceConfig, b: DeviceConfig) {
    if a.port == b.port then
      a.sda == b.sda && a.scl == b.scl && a.clockHz == b.clockHz && a.pullup == b.pullup && a.address != b.address
    else a.sda != b.sda && a.sda != b.scl && a.scl != b.sda && a.scl != b.scl
  }

  predicate ValidChannel(c: Channel, a: Acquisition) {
    c.device < |a.devices| && c.mux <= 7 && c.gain <= 5 && SamplesPerSecond(c.rate) > 0
    && a.timeout > MinimumTimeout(c.rate)
  }

  predicate Clash(a: Channel, b: Channel) {
    a.probe == b.probe || (a.device == b.device && a.mux == b.mux)
  }

  predicate HasChannel(channels: seq<Channel>, device: nat) {
    exists k :: 0 <= k < |channels| && channels[k].device == device
  }

  predicate ValidAcquisition(a: Acquisition) {
    1 <= |a.devices| <= MAXIMUM_DEVICES && |a.channels| >= 1
    && (forall k :: 0 <= k < |a.devices| ==> ValidDevice(a.devices[k]))
    && (|a.devices| == 2 ==> CompatiblePair(a.devices[0], a.devices[1]))
    && a.timeout > 0 && a.maximumAge > 0
    && (forall k :: 0 <= k < |a.channels| ==> ValidChannel(a.channels[k], a))
    && (forall j, k :: 0 <= j < k < |a.channels| ==> !Clash(a.channels[j], a.channels[k]))
    && (forall d: nat :: d < |a.devices| ==> HasChannel(a.channels, d))
  }

  /** The nested checking loop decides exactly the declarative condition. */
  method CheckAcquisition(a: Acquisition) returns (valid: bool)
    ensures valid <==> ValidAcquisition(a)
  {
    if |a.devices| == 0 || |a.devices| > MAXIMUM_DEVICES || |a.channels| == 0 { return false; }
    for k := 0 to |a.devices|
      invariant forall j :: 0 <= j < k ==> ValidDevice(a.devices[j])
    {
      if !ValidDevice(a.devices[k]) { return false; }
    }
    if |a.devices| == MAXIMUM_DEVICES && !CompatiblePair(a.devices[0], a.devices[1]) { return false; }
    if a.timeout <= 0 || a.maximumAge <= 0 { return false; }
    var present := [false, false];
    for index := 0 to |a.channels|
      invariant |present| == 2
      invariant forall k :: 0 <= k < index ==> ValidChannel(a.channels[k], a)
      invariant forall j, k :: 0 <= j < k < index ==> !Clash(a.channels[j], a.channels[k])
      invariant forall d: nat :: d < 2 ==> (present[d] <==> HasChannel(a.channels[..index], d))
    {
      var c := a.channels[index];
      if !ValidChannel(c, a) {
        assert !ValidChannel(a.channels[index], a);
        return false;
      }
      HasChannelStep(a.channels, index);
      present := present[c.device := true];
      for earlier := 0 to index
        invariant forall j :: 0 <= j < earlier ==> !Clash(a.channels[j], c)
      {
        if Clash(a.channels[earlier], c) {
          assert Clash(a.channels[earlier], a.channels[index]);
          return false;
        }
      }
    }
    assert a.channels[..|a.channels|] == a.channels;
    valid := present[0] && (|a.devices| == 1 || present[1]);
  }

  lemma HasChannelStep(channels: seq<Channel>, n: nat)
    requires n < |channels|
    ensures forall d: nat :: HasChannel(channels[..n + 1], d) <==> HasChannel(channels[..n], d) || channels[n].device == d
  {
    forall d: nat
      ensures HasChannel(channels[..n + 1], d) <==> HasChannel(channels[..n], d) || channels[n].device == d
    {
      if HasChannel(channels[..n], d) {
        var k :| 0 <= k < n && channels[..n][k].device == d;
        assert channels[..n + 1][k].device == d;
      }
      if HasChannel(channels[..n + 1], d) {
        var k :| 0 <= k < n + 1 && channels[..n + 1][k].device == d;
        assert k < n ==> channels[..n][k].device == d;
      }
      if channels[n].device == d {
        assert channels[..n + 1][n].device == d;
      }
    }
  }

  // ---------------------------------------------------------------- converters

  /** Which conversion a register or a running converter belongs to. */
  datatype Origin = Foreign | Ours(serial: nat, channel: Channel)

  /**
   * One physical converter. Its settings are unknown until a channel was configured successfully;
   * a running conversion may end between any two calls.
   */
  datatype Converter = Converter(settings: Option<Channel>, running: Option<Origin>, result: Origin)

  datatype Call =
    | Configured(channel: Channel, ok: bool)
    | Started(device: nat, ok: bool)
    | Polled(device: nat, ok: bool, busy: bool)
    | Fetched(device: nat, ok: bool, raw: int)
    | Converted(channel: Channel, raw: int, temperature: Option<real>)
    | Timed(now: int)

  class Backend {
    /** The physical converters, and how many conversions this source may have started. */
    ghost var converters: seq<Converter>
    ghost var started: nat
    /** Everything asked of the hardware, the converter and the clock, with the answers. */
    ghost var calls: seq<Call>

    /** Nothing is known about the converters at boot. */
    constructor (ghost initial: seq<Converter>)
      ensures converters == initial && started == 0 && calls == []
    {
      converters, started, calls := initial, 0, [];
    }

    /** A running conversion may end at any time. */
    ghost method Elapse(device: nat)
      requires device < |converters|
      modifies this`converters
      ensures |converters| == |old(converters)| && converters == old(converters)[device := converters[device]]
      ensures converters[device] == old(converters)[device]
              || (old(converters)[device].running.Some?
                  && converters[device] == Finished(old(converters)[device]))
    {
      var ends: bool := *;
      if ends && converters[device].running.Some? {
        converters := converters[device := Finished(converters[device])];
      }
    }

    method Initialize(ghost devices: nat) returns (ok: bool)
      requires |converters| == devices
    {
      ok := *;
    }

    /** Only on an idle converter; a failure leaves its settings unknown. */
    method ConfigureChannel(c: Channel) returns (ok: bool)
      requires c.device < |converters| && converters[c.device].running == None
      modifies this`converters, this`calls
      ensures calls == old(calls) + [Configured(c, ok)]
      ensures |converters| == |old(converters)| && converters == old(converters)[c.device := converters[c.device]]
      ensures converters[c.device] == old(converters)[c.device].(settings := converters[c.device].settings)
      ensures ok ==> converters[c.device].settings == Some(c)
    {
      ok := *;
      ghost var unknown: Option<Channel> := *;
      converters := converters[c.device := converters[c.device].(settings := if ok then Some(c) else unknown)];
      calls := calls + [Configured(c, ok)];
    }

    /** Only on an idle, configured converter; after a failure it may or may not be converting. */
    method StartConversion(device: nat) returns (ok: bool)
      requires device < |converters| && converters[device].running == None && converters[device].settings.Some?
      modifies this
      ensures |converters| == |old(converters)| && converters == old(converters)[device := converters[device]]
      ensures started == old(started) + 1 && calls == old(calls) + [Started(device, ok)]
      ensures converters[device].settings == old(converters)[device].settings
      ensures ok ==> Holds(converters[device], Ours(old(started), old(converters)[device].settings.value))
    {
      ok := *;
      ghost var conversion := Ours(started, converters[device].settings.value);
      ghost var didStart: bool := *;
      if ok || didStart {
        converters := converters[device := converters[device].(running := Some(conversion))];
        Elapse(device);
      }
      started := started + 1;
      calls := calls + [Started(device, ok)];
    }

    /** An answer of not busy means that any running conversion has ended by then. */
    method ConversionBusy(device: nat) returns (ok: bool, busy: bool)
      requires device < |converters|
      modifies this`converters, this`calls
      ensures |converters| == |old(converters)| && converters == old(converters)[device := converters[device]]
      ensures converters[device] == old(converters)[device]
              || (old(converters)[device].running.Some? && converters[device] == Finished(old(converters)[device]))
      ensures calls == old(calls) + [Polled(device, ok, busy)]
      ensures ok && !busy ==> converters[device].running == None
    {
      ok, busy := *, *;
      if ok && !busy && converters[device].running.Some? {
        converters := converters[device := Finished(converters[device])];
      } else {
        Elapse(device);
      }
      calls := calls + [Polled(device, ok, busy)];
    }

    method GetValue(device: nat) returns (ok: bool, raw: int, ghost origin: Origin)
      requires device < |converters| && converters[device].running == None
      modifies this`calls
      ensures ok ==> origin == converters[device].result
      ensures calls == old(calls) + [Fetched(device, ok, raw)]
    {
      ok, raw := *, *;
      origin := converters[device].result;
      calls := calls + [Fetched(device, ok, raw)];
    }

    method ReadClock() returns (now: int)
      modifies this`calls
      ensures calls == old(calls) + [Timed(now)]
    {
      now := *;
      calls := calls + [Timed(now)];
    }

    method Convert(c: Channel, raw: int) returns (temperature: Option<real>)
      modifies this`calls
      ensures calls == old(calls) + [Converted(c, raw, temperature)]
    {
      temperature := *;
      calls := calls + [Converted(c, raw, temperature)];
    }
  }

  ghost function Finished(c: Converter): Converter
    requires c.running.Some?
  {
    c.(running := None, result := c.running.value)
  }

  /** The conversion is running, or its result is in the register. */
  ghost predicate Holds(c: Converter, conversion: Origin) {
    c.running == Some(conversion) || (c.running == None && c.result == conversion)
  }

  // ---------------------------------------------------------------- the sequencer

  datatype DeviceState = Unsynchronized | DeviceIdle | DeviceConverting

  datatype CachedSample = CachedSample(temperature: real, observedAt: int)

  /** A cached sample comes from a conversion this source started with the channel's own settings. */
  predicate Provenance(sample: Option<CachedSample>, origin: Origin, started: nat, channel: Channel) {
    sample.Some? ==> origin.Ours? && origin.serial < started && origin.channel == channel
  }

  /** What the recorded device state promises about the converter. */
  ghost predicate DeviceSound(state: DeviceState, converter: Converter, active: Option<Origin>, started: nat) {
    match state
    case Unsynchronized => active == None
    case DeviceIdle => active == None && converter.running == None
    case DeviceConverting =>
      active.Some? && active.value.Ours? && active.value.serial < started && Holds(converter, active.value)
  }

  /** What the sequencer remembers between service calls. */
  datatype Sequencer = Sequencer(
    samples: seq<Option<CachedSample>>, deviceStates: seq<DeviceState>, next: nat, active: nat, converting: bool,
    deadline: int)

  function Following(a: Acquisition, k: nat): nat
    requires |a.channels| > 0
  {
    if k + 1 >= |a.channels| then 0 else k + 1
  }

  /** Moving on from the active channel with the given sample and device state. */
  function MovedOn(a: Acquisition, s: Sequencer, sample: Option<CachedSample>, state: DeviceState): Sequencer
    requires s.active < |a.channels| == |s.samples| && a.channels[s.active].device < |s.deviceStates|
  {
    s.(samples := s.samples[s.active := sample],
       deviceStates := s.deviceStates[a.channels[s.active].device := state],
       next := Following(a, s.active), converting := false)
  }

  /** A start, as the answers to its calls decide: resynchronize, launch, or give the channel up. */
  ghost predicate StartStep(a: Acquisition, before: Sequencer, calls: seq<Call>, after: Sequencer)
  {
    before.next < |a.channels| == |before.samples| && a.channels[before.next].device < |before.deviceStates|
    && var s, c := before.(active := before.next), a.channels[before.next];
    var state, sample := s.deviceStates[c.device], s.samples[s.active];
    if state == Unsynchronized then
      exists ok, busy ::
        calls == [Polled(c.device, ok, busy)]
        && after == if ok && !busy then s.(deviceStates := s.deviceStates[c.device := DeviceIdle])
                    else MovedOn(a, s, sample, Unsynchronized)
    else
      (calls == [Configured(c, false)] && after == MovedOn(a, s, None, state))
      || (calls == [Configured(c, true), Started(c.device, false)] && after == MovedOn(a, s, None, Unsynchronized))
      || exists now ::
           calls == [Configured(c, true), Started(c.device, true), Timed(now)]
           && after == s.(deviceStates := s.deviceStates[c.device := DeviceConverting], converting := true,
                          deadline := now + a.timeout)
  }

  /** A poll: wait until the deadline, quarantine a device that fails or hangs, or collect the result. */
  ghost predicate PollStep(a: Acquisition, s: Sequencer, calls: seq<Call>, after: Sequencer)
  {
    s.active < |a.channels| == |s.samples| && a.channels[s.active].device < |s.deviceStates|
    && var c := a.channels[s.active];
    var d := c.device;
    (exists busy :: calls == [Polled(d, false, busy)] && after == MovedOn(a, s, None, Unsynchronized))
    || (exists now ::
          calls == [Polled(d, true, true), Timed(now)]
          && after == if now < s.deadline then s else MovedOn(a, s, None, Unsynchronized))
    || (exists raw ::
          calls == [Polled(d, true, false), Fetched(d, false, raw)] && after == MovedOn(a, s, None, DeviceIdle))
    || (exists raw ::
          calls == [Polled(d, true, false), Fetched(d, true, raw), Converted(c, raw, None)]
          && after == MovedOn(a, s, None, DeviceIdle))
    || exists raw, t, now ::
         calls == [Polled(d, true, false), Fetched(d, true, raw), Converted(c, raw, Some(t)), Timed(now)]
         && after == MovedOn(a, s, Some(CachedSample(t, now)), DeviceIdle)
  }

  class ProbeSource {
    const configuration: Acquisition
    const backend: Backend
    var configured: bool
    var samples: seq<Option<CachedSample>>
    var deviceStates: seq<DeviceState>
    var nextChannel: nat
    var activeChannel: nat
    var converting: bool
    var deadline: int
    /** The conversion behind each cached sample, and the active conversion. */
    ghost var origins: seq<Origin>
    ghost var active: Origin

    ghost predicate Valid()
      reads this, backend
    {
      |samples| == |origins| == |configuration.channels| && |deviceStates| == 2
      && (forall k :: 0 <= k < |samples| ==>
            Provenance(samples[k], origins[k], backend.started, configuration.channels[k]))
      && (configured ==>
            ValidAcquisition(configuration) && |backend.converters| == |configuration.devices|
            && nextChannel < |configuration.channels| && activeChannel < |configuration.channels|
            && (forall d :: 0 <= d < |backend.converters| ==>
                  DeviceSound(deviceStates[d], backend.converters[d], ActiveOn(d), backend.started))
            && (converting ==> active.Ours? && active.channel == configuration.channels[activeChannel]))
    }

    /** The active conversion, if it is on converter `d`. */
    ghost function ActiveOn(d: int): Option<Origin>
      reads this
    {
      if converting && activeChannel < |configuration.channels| && configuration.channels[activeChannel].device == d
      then Some(active) else None
    }

    constructor (a: Acquisition, b: Backend)
      requires |b.converters| == |a.devices|
      ensures Valid() && configuration == a && backend == b && !converting
      ensures forall k :: 0 <= k < |samples| ==> samples[k] == None
    {
      configuration, backend := a, b;
      samples, origins := seq(|a.channels|, _ => None), seq(|a.channels|, _ => Foreign);
      deviceStates := [Unsynchronized, Unsynchronized];
      nextChannel, activeChannel, converting, deadline, active := 0, 0, false, 0, Foreign;
      configured := false;
      new;
      var valid := CheckAcquisition(a);
      if valid {
        var initialized := backend.Initialize(|a.devices|);
        configured := initialized;
      }
    }

    ghost function State(): Sequencer
      reads this
    {
      Sequencer(samples, deviceStates, nextChannel, activeChannel, converting, deadline)
    }

    /** One bounded step of the acquisition. */
    method Service() returns (ghost made: seq<Call>)
      requires Valid()
      modifies this, backend
      ensures Valid() && configured == old(configured) && backend.calls == old(backend.calls) + made
      ensures !configured ==> State() == old(State()) && made == []
      ensures configured ==>
                if old(converting) then PollStep(configuration, old(State()), made, State())
                else StartStep(configuration, old(State()), made, State())
      ensures forall k: nat :: k < |samples| && k != old(if converting then activeChannel else nextChannel) ==>
                samples[k] == old(samples)[k] && origins[k] == old(origins)[k]
      ensures backend.started <= old(backend.started) + 1
    {
      hide StartStep, PollStep;
      made := [];
      if !configured { return; }
      if !converting {
        made := StartNextConversion();
      } else {
        made := PollActiveConversion();
      }
    }

    method StartNextConversion() returns (ghost made: seq<Call>)
      requires Valid() && configured && !converting
      modifies this, backend
      ensures Valid() && configured && backend.started <= old(backend.started) + 1
      ensures backend.calls == old(backend.calls) + made && StartStep(configuration, old(State()), made, State())
      ensures origins == old(origins)
      ensures forall k: nat :: k < |samples| && k != old(nextChannel) ==> samples[k] == old(samples)[k]
    {
      ChannelCount();
      hide ValidAcquisition;
      activeChannel := nextChannel;
      var channel := configuration.channels[activeChannel];
      if deviceStates[channel.device] == Unsynchronized {
        var ok, busy := backend.ConversionBusy(channel.device);
        made := [Polled(channel.device, ok, busy)];
        if !ok || busy {
          AdvanceToNextChannel();
          return;
        }
        deviceStates := deviceStates[channel.device := DeviceIdle];
        return;
      }
      made := LaunchActiveChannel();
    }

    /** On a converter known to be idle: configure it, and start only a configured one. */
    method LaunchActiveChannel() returns (ghost made: seq<Call>)
      requires Valid() && configured && !converting && nextChannel == activeChannel
      requires configuration.channels[activeChannel].device < 2
      requires deviceStates[configuration.channels[activeChannel].device] != Unsynchronized
      modifies this, backend
      ensures Valid() && configured && backend.started <= old(backend.started) + 1
      ensures backend.calls == old(backend.calls) + made
      ensures StartStep(configuration, old(State()), made, State())
      ensures origins == old(origins) && activeChannel == old(activeChannel)
      ensures forall k: nat :: k < |samples| && k != activeChannel ==> samples[k] == old(samples)[k]
    {
      ChannelCount();
      hide ValidAcquisition, StartStep;
      ghost var before := State();
      var channel := configuration.channels[activeChannel];
      var ok := backend.ConfigureChannel(channel);
      made := [Configured(channel, ok)];
      if !ok {
        samples := samples[activeChannel := None];
        AdvanceToNextChannel();
        LaunchFails(configuration, before, made);
        return;
      }
      ghost var rest := StartActiveChannel(channel);
      made := made + rest;
    }

    /** Starts the configured channel; only a successful start sets a deadline. */
    method StartActiveChannel(channel: Channel) returns (ghost made: seq<Call>)
      requires Valid() && configured && !converting && channel == configuration.channels[activeChannel]
      requires nextChannel == activeChannel && channel.device < 2 && deviceStates[channel.device] != Unsynchronized
      requires backend.converters[channel.device].settings == Some(channel)
      modifies this, backend
      ensures Valid() && configured && backend.started == old(backend.started) + 1
      ensures backend.calls == old(backend.calls) + made
      ensures StartStep(configuration, old(State()), [Configured(channel, true)] + made, State())
      ensures origins == old(origins) && activeChannel == old(activeChannel)
      ensures forall k: nat :: k < |samples| && k != activeChannel ==> samples[k] == old(samples)[k]
    {
      ChannelCount();
      hide ValidAcquisition, StartStep;
      ghost var before := State();
      var d := channel.device;
      ghost var serial := backend.started;
      var ok := backend.StartConversion(d);
      made := [Started(d, ok)];
      if !ok {
        samples := samples[activeChannel := None];
        deviceStates := deviceStates[d := Unsynchronized];
        AdvanceToNextChannel();
        LaunchFails(configuration, before, [Configured(channel, true)] + made);
        return;
      }
      var now := backend.ReadClock();
      made := made + [Timed(now)];
      deadline := now + configuration.timeout;
      deviceStates := deviceStates[d := DeviceConverting];
      converting := true;
      active := Ours(serial, channel);
      Launches(configuration, before, now);
      assert [Configured(channel, true)] + made == [Configured(channel, true)] + [Started(d, true)] + [Timed(now)];
    }

    method PollActiveConversion() returns (ghost made: seq<Call>)
      requires Valid() && configured && converting
      modifies this, backend
      ensures Valid() && configured && backend.started == old(backend.started) && activeChannel == old(activeChannel)
      ensures backend.calls == old(backend.calls) + made && PollStep(configuration, old(State()), made, State())
      ensures forall k: nat :: k < |samples| && k != activeChannel ==>
                samples[k] == old(samples)[k] && origins[k] == old(origins)[k]
      ensures samples[activeChannel].Some? && !converting ==> origins[activeChannel] == old(active)
    {
      hide PollStep;
      ghost var before := State();
      var channel := configuration.channels[activeChannel];
      assert ValidChannel(channel, configuration);
      var d := channel.device;
      var ok, busy := backend.ConversionBusy(d);
      made := [Polled(d, ok, busy)];
      if !ok {
        QuarantineActiveDevice();
        PollQuarantines(configuration, before, made);
        return;
      }
      if busy {
        var now := backend.ReadClock();
        made := made + [Timed(now)];
        PollWaits(configuration, before, now);
        if now < deadline { return; }
        QuarantineActiveDevice();
        return;
      }
      ghost var rest := CollectResult(d);
      made := made + rest;
    }

    /** OS=ready was seen: the register holds the active conversion's result. */
    method CollectResult(d: nat) returns (ghost made: seq<Call>)
      requires Valid() && configured && converting && configuration.channels[activeChannel].device == d
      requires d < |backend.converters| && backend.converters[d].running == None
      modifies this, backend`calls
      ensures Valid() && configured && activeChannel == old(activeChannel) && !converting
      ensures forall k: nat :: k < |samples| && k != activeChannel ==>
                samples[k] == old(samples)[k] && origins[k] == old(origins)[k]
      ensures backend.calls == old(backend.calls) + made
      ensures PollStep(configuration, old(State()), [Polled(d, true, false)] + made, State())
      ensures samples[activeChannel].Some? ==> origins[activeChannel] == old(active)
    {
      ChannelCount();
      hide ValidAcquisition, PollStep;
      ghost var before := State();
      var channel := configuration.channels[activeChannel];
      deviceStates := deviceStates[d := DeviceIdle];
      var ok, raw;
      ghost var origin;
      ok, raw, origin := backend.GetValue(d);
      made := [Fetched(d, ok, raw)];
      if !ok {
        samples := samples[activeChannel := None];
      } else {
        var converted := backend.Convert(channel, raw);
        made := made + [Converted(channel, raw, converted)];
        if converted.Some? {
          var now := backend.ReadClock();
          made := made + [Timed(now)];
          samples := samples[activeChannel := Some(CachedSample(converted.value, now))];
          origins := origins[activeChannel := origin];
        } else {
          samples := samples[activeChannel := None];
        }
      }
      AdvanceAfterActiveConversion();
      PollCollects(configuration, before, ok, raw, made, samples[activeChannel]);
    }

    lemma ChannelCount()
      ensures ValidAcquisition(configuration) ==> |configuration.channels| > 0 && |configuration.devices| <= 2
      ensures ValidAcquisition(configuration) ==>
                forall k :: 0 <= k < |configuration.channels| ==>
                  configuration.channels[k].device < |configuration.devices|
    {
    }

    method QuarantineActiveDevice()
      requires Valid() && configured && converting
      modifies this`samples, this`deviceStates, this`nextChannel, this`converting
      ensures Valid() && configuration.channels[activeChannel].device < 2
      ensures State() == MovedOn(configuration, old(State()), None, Unsynchronized)
    {
      assert ValidChannel(configuration.channels[activeChannel], configuration);
      samples := samples[activeChannel := None];
      deviceStates := deviceStates[configuration.channels[activeChannel].device := Unsynchronized];
      AdvanceAfterActiveConversion();
    }

    method AdvanceToNextChannel()
      requires activeChannel < |configuration.channels|
      modifies this`nextChannel
      ensures nextChannel == Following(configuration, activeChannel)
    {
      nextChannel := (activeChannel + 1) % |configuration.channels|;
    }

    method AdvanceAfterActiveConversion()
      requires activeChannel < |configuration.channels|
      modifies this`nextChannel, this`converting
      ensures nextChannel == Following(configuration, activeChannel) && !converting
    {
      AdvanceToNextChannel();
      converting := false;
    }

    /** The first channel of a probe that has a cached sample. */
    predicate FirstSampled(probe: byte, k: int)
      reads this
    {
      0 <= k < |samples| == |configuration.channels| && configuration.channels[k].probe == probe && samples[k].Some?
      && forall j :: 0 <= j < k ==> configuration.channels[j].probe != probe || samples[j] == None
    }

    /** Reads the clock once if the probe has a sample, and hands the sample out exactly while it is recent then. */
    method Read(probe: byte) returns (result: Option<real>, ghost made: seq<Call>)
      requires Valid()
      modifies backend`calls
      ensures Valid() && backend.calls == old(backend.calls) + made
      ensures (forall k :: !FirstSampled(probe, k)) ==> result == None && made == []
      ensures forall k :: FirstSampled(probe, k) ==>
                exists now :: made == [Timed(now)] && result == Recent(samples[k].value, now, configuration.maximumAge)
    {
      made := [];
      for k := 0 to |configuration.channels|
        invariant Valid() && made == [] && backend.calls == old(backend.calls)
        invariant forall j :: 0 <= j < k ==> configuration.channels[j].probe != probe || samples[j] == None
      {
        if configuration.channels[k].probe == probe && samples[k].Some? {
          var now := backend.ReadClock();
          made := [Timed(now)];
          assert FirstSampled(probe, k);
          if now < samples[k].value.observedAt || now - samples[k].value.observedAt > configuration.maximumAge {
            return None, made;
          }
          return Some(samples[k].value.temperature), made;
        }
      }
      result := None;
    }

    /** A probe has one channel, so whatever sample it has is the one that is read. */
    lemma OneSample(probe: byte, k: int)
      requires Valid() && configured && 0 <= k < |samples| && configuration.channels[k].probe == probe && samples[k].Some?
      ensures FirstSampled(probe, k)
    {
      OnlyChannel(configuration, k);
    }
  }

  /** A sample's temperature, while the sample is not from the future and not too old. */
  function Recent(sample: CachedSample, now: int, maximumAge: int): Option<real> {
    if 0 <= now - sample.observedAt <= maximumAge then Some(sample.temperature) else None
  }

  lemma LaunchFails(a: Acquisition, s: Sequencer, made: seq<Call>)
    requires s.next < |a.channels| == |s.samples| && a.channels[s.next].device < |s.deviceStates| && s.active == s.next
    requires var c := a.channels[s.next];
             s.deviceStates[c.device] != Unsynchronized
             && (made == [Configured(c, false)] || made == [Configured(c, true)] + [Started(c.device, false)])
    ensures StartStep(a, s, made, MovedOn(a, s, None, if |made| == 1 then s.deviceStates[a.channels[s.next].device]
                                                      else Unsynchronized))
    ensures s.deviceStates[a.channels[s.next].device := s.deviceStates[a.channels[s.next].device]] == s.deviceStates
  {
    var c := a.channels[s.next];
    assert [Configured(c, true)] + [Started(c.device, false)] == [Configured(c, true), Started(c.device, false)];
  }

  lemma Launches(a: Acquisition, s: Sequencer, now: int)
    requires s.next < |a.channels| == |s.samples| && a.channels[s.next].device < |s.deviceStates| && s.active == s.next
    requires s.deviceStates[a.channels[s.next].device] != Unsynchronized
    ensures var c := a.channels[s.next];
            StartStep(a, s, [Configured(c, true)] + [Started(c.device, true)] + [Timed(now)],
                      s.(deviceStates := s.deviceStates[c.device := DeviceConverting], converting := true,
                         deadline := now + a.timeout))
  {
    var c := a.channels[s.next];
    assert [Configured(c, true)] + [Started(c.device, true)] + [Timed(now)]
        == [Configured(c, true), Started(c.device, true), Timed(now)];
  }

  lemma PollQuarantines(a: Acquisition, s: Sequencer, calls: seq<Call>)
    requires s.active < |a.channels| == |s.samples| && a.channels[s.active].device < |s.deviceStates|
    requires exists busy :: calls == [Polled(a.channels[s.active].device, false, busy)]
    ensures PollStep(a, s, calls, MovedOn(a, s, None, Unsynchronized))
  {
  }

  lemma PollWaits(a: Acquisition, s: Sequencer, now: int)
    requires s.active < |a.channels| == |s.samples| && a.channels[s.active].device < |s.deviceStates|
    ensures PollStep(a, s, [Polled(a.channels[s.active].device, true, true)] + [Timed(now)],
                     if now < s.deadline then s else MovedOn(a, s, None, Unsynchronized))
  {
    assert [Polled(a.channels[s.active].device, true, true)] + [Timed(now)]
        == [Polled(a.channels[s.active].device, true, true), Timed(now)];
  }

  lemma PollCollects(a: Acquisition, s: Sequencer, ok: bool, raw: int, made: seq<Call>, sample: Option<CachedSample>)
    requires s.active < |a.channels| == |s.samples| && a.channels[s.active].device < |s.deviceStates|
    requires var c := a.channels[s.active];
             if !ok then made == [Fetched(c.device, false, raw)] && sample == None
             else if sample == None then made == [Fetched(c.device, true, raw)] + [Converted(c, raw, None)]
             else made == [Fetched(c.device, true, raw)] + [Converted(c, raw, Some(sample.value.temperature))]
                          + [Timed(sample.value.observedAt)]
    ensures PollStep(a, s, [Polled(a.channels[s.active].device, true, false)] + made, MovedOn(a, s, sample, DeviceIdle))
  {
    var c := a.channels[s.active];
    var p, f := Polled(c.device, true, false), Fetched(c.device, ok, raw);
    if !ok {
      assert [p] + made == [p, f];
    } else if sample == None {
      assert [p] + made == [p, f, Converted(c, raw, None)];
    } else {
      assert [p] + made == [p, f, Converted(c, raw, Some(sample.value.temperature)), Timed(sample.value.observedAt)];
    }
  }

  lemma OnlyChannel(a: Acquisition, k: nat)
    requires k < |a.channels|
    ensures ValidAcquisition(a) ==>
              forall j :: 0 <= j < |a.channels| && a.channels[j].probe == a.channels[k].probe ==> j == k
  {
    if ValidAcquisition(a) {
      forall j | 0 <= j < |a.channels| && a.channels[j].probe == a.channels[k].probe
        ensures j == k
      {
        assert j < k ==> !Clash(a.channels[j], a.channels[k]);
        assert k < j ==> !Clash(a.channels[k], a.channels[j]);
      }
    }
  }
}
