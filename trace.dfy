/** What main's trace of effects (Switcher.Main) guarantees: the order in
    which the program touches the audio layer, the hotkeys and the tray,
    how it ends, and what a stretch of ordinary messages does. */
module Trace {
  import opened Results
  import Hotkey
  import opened Setup
  import opened Switcher

  // ---------------------------------------------------------------------
  // Ordering

  /** Effects that may come after anything: the start of a toggle, of a
      dispatch, of a reconfiguration and of the cleanup. */
  predicate Opening(e: Effect)
  {
    e.ReadDefault? || e.UnregisterAll? || e.TrayCleanup? || e.Dispatch?
  }

  /** What may come right before each effect: a switch only after a
      successful read, a tray update only after a successful switch or the
      options hotkey, the tray only after both hotkeys, the options hotkey
      only after the toggle hotkey was registered, the toggle hotkey after
      the state was read, the device listing of a reconfiguration only
      after unregistering, and a save only after the listing. */
  predicate MayFollow(p: Effect, e: Effect)
  {
    match e
    case SwitchDefault(_, _) => p.ReadDefault? && p.reply.Ok?
    case TrayUpdate(_) => (p.SwitchDefault? && p.ok) || p == RegisterOptions(Hotkey.OPTIONS_HOTKEY)
    case TraySetup(_) => p == RegisterOptions(Hotkey.OPTIONS_HOTKEY)
    case RegisterOptions(_) => p.RegisterToggle? && Hotkey.Registered(p.registration)
    case RegisterToggle(_) => p.ReadDefault?
    case ListDevices => p == UnregisterAll
    case SaveConfig(_) => p == ListDevices
    case _ => true
  }

  predicate Linked(effs: seq<Effect>)
  {
    forall k :: 0 < k < |effs| ==> MayFollow(effs[k - 1], effs[k])
  }

  /** A piece of the message loop's trace. */
  predicate Chunk(effs: seq<Effect>)
  {
    Linked(effs) && (effs != [] ==> Opening(effs[0]))
  }

  /** main's whole trace: linked, and it opens either like a chunk or with
      the device listing of the first-time setup. */
  predicate WellOrdered(effs: seq<Effect>)
  {
    Linked(effs) && (effs != [] ==> Opening(effs[0]) || effs[0] == ListDevices)
  }

  lemma LinkedAppend(a: seq<Effect>, b: seq<Effect>)
    requires Linked(a) && Linked(b)
    requires a != [] && b != [] ==> MayFollow(a[|a| - 1], b[0])
    ensures Linked(a + b)
  {
    forall k | 0 < k < |a + b|
      ensures MayFollow((a + b)[k - 1], (a + b)[k])
    {
      if k < |a| {
        assert (a + b)[k - 1] == a[k - 1] && (a + b)[k] == a[k];
      } else if k == |a| {
        assert (a + b)[k - 1] == a[|a| - 1] && (a + b)[k] == b[0];
      } else {
        assert (a + b)[k - 1] == b[k - |a| - 1] && (a + b)[k] == b[k - |a|];
      }
    }
  }

  lemma ChunkAppend(a: seq<Effect>, b: seq<Effect>)
    requires Chunk(a) && Chunk(b)
    ensures Chunk(a + b)
  {
    LinkedAppend(a, b);
    if a == [] {
      assert a + b == b;
    } else {
      assert (a + b)[0] == a[0];
    }
  }

  lemma WellOrderedAppend(a: seq<Effect>, b: seq<Effect>)
    requires WellOrdered(a) && Chunk(b)
    ensures WellOrdered(a + b)
  {
    LinkedAppend(a, b);
    if a == [] {
      assert a + b == b;
    } else {
      assert (a + b)[0] == a[0];
    }
  }

  lemma ToggleChunk(cfg: Config, current: Result<DeviceId, AudioFailure>, switchOk: bool)
    ensures Chunk(ToggleDevice(cfg, current, switchOk))
  {
  }

  lemma ReconfigureChunk(w: World)
    ensures Chunk(ReconfigureStep(w).0)
  {
    var (setupEffs, outcome) := SetupStep(w);
    var head := [UnregisterAll] + setupEffs;
    assert Chunk(head);
    if outcome.Configured? {
      var cfg := outcome.cfg;
      var reg := Hotkey.Register(cfg.hotkey, w.registerOk);
      var mid := head + [ReadDefault(w.current), RegisterToggle(reg)];
      LinkedAppend(head, [ReadDefault(w.current), RegisterToggle(reg)]);
      assert mid[0] == UnregisterAll;
      if Hotkey.Registered(reg) {
        assert mid[|mid| - 1] == RegisterToggle(reg);
        LinkedAppend(mid, [RegisterOptions(Hotkey.OPTIONS_HOTKEY), TrayUpdate(IsCurrentSpeakers(cfg, w.current))]);
        assert (mid + [RegisterOptions(Hotkey.OPTIONS_HOTKEY), TrayUpdate(IsCurrentSpeakers(cfg, w.current))])[0] == UnregisterAll;
      }
    }
  }

  /** Every trace of the message loop is a chunk. */
  lemma {:induction false} LoopChunk(cfg: Config, events: seq<Event>)
    ensures Chunk(Loop(cfg, events).effects)
    decreases |events|
  {
    if events != [] {
      var e := events[0];
      match Classify(e.msg)
      case Toggle =>
        ToggleChunk(cfg, e.world.current, e.world.switchOk);
        LoopChunk(cfg, events[1..]);
        ChunkAppend(ToggleDevice(cfg, e.world.current, e.world.switchOk), Loop(cfg, events[1..]).effects);
      case Ignore =>
        LoopChunk(cfg, events[1..]);
      case Pass =>
        LoopChunk(cfg, events[1..]);
        ChunkAppend([Dispatch(e.msg)], Loop(cfg, events[1..]).effects);
      case Exit =>
      case Reconfigure =>
        var (effs, step) := ReconfigureStep(e.world);
        ReconfigureChunk(e.world);
        match step
        case Continue(newCfg) =>
          LoopChunk(newCfg, events[1..]);
          ChunkAppend(effs, Loop(newCfg, events[1..]).effects);
        case Leave =>
          ChunkAppend(effs, Shutdown);
        case Stop(_) =>
    }
  }

  lemma StartOrdered(start: Start)
    ensures WellOrdered(StartStep(start).0)
  {
    var w := start.world;
    var (setupEffs, outcome) :=
      if start.loaded.Some? then ([], Configured(start.loaded.value)) else SetupStep(w);
    assert WellOrdered(setupEffs);
    if outcome.Configured? {
      var cfg := outcome.cfg;
      var reg := Hotkey.Register(cfg.hotkey, w.registerOk);
      var mid := setupEffs + [ReadDefault(w.current), RegisterToggle(reg)];
      LinkedAppend(setupEffs, [ReadDefault(w.current), RegisterToggle(reg)]);
      assert mid[0] == if setupEffs == [] then ReadDefault(w.current) else ListDevices;
      if Hotkey.Registered(reg) {
        assert mid[|mid| - 1] == RegisterToggle(reg);
        LinkedAppend(mid, [RegisterOptions(Hotkey.OPTIONS_HOTKEY), TraySetup(IsCurrentSpeakers(cfg, w.current))]);
        assert (mid + [RegisterOptions(Hotkey.OPTIONS_HOTKEY), TraySetup(IsCurrentSpeakers(cfg, w.current))])[0] == mid[0];
      }
    }
  }

  /** The order of main's effects: no switch without a successful read, no
      tray update without a successful switch or a completed
      reconfiguration, no options hotkey or tray without a registered
      toggle key, and every device listing after the first one preceded by
      an unregistration. */
  lemma MainOrdered(start: Start, events: seq<Event>)
    ensures WellOrdered(Main(start, events).effects)
  {
    var (effs, step) := StartStep(start);
    StartOrdered(start);
    match step
    case Continue(cfg) =>
      LoopChunk(cfg, events);
      WellOrderedAppend(effs, Loop(cfg, events).effects);
    case Leave =>
      WellOrderedAppend(effs, Shutdown);
    case Stop(_) =>
  }

  // ---------------------------------------------------------------------
  // Endings

  /** How a trace ends: on leaving the loop, with the tray's cleanup and
      the unregistration as its last two effects and no cleanup before
      them; otherwise without any cleanup; on a crash, in the device
      listing of run_setup. */
  predicate EndsRight(o: Outcome)
  {
    (o.ending == Exited ==>
      |o.effects| >= |Shutdown| &&
      o.effects == o.effects[..|o.effects| - |Shutdown|] + Shutdown &&
      TrayCleanup !in o.effects[..|o.effects| - |Shutdown|]) &&
    (o.ending != Exited ==> TrayCleanup !in o.effects) &&
    (o.ending == Crashed ==> o.effects != [] && o.effects[|o.effects| - 1] == ListDevices)
  }

  predicate QuitIn(events: seq<Event>)
  {
    exists k :: 0 <= k < |events| && Classify(events[k].msg).Exit?
  }

  lemma QuitInCons(events: seq<Event>)
    requires events != []
    ensures QuitIn(events) <==> Classify(events[0].msg).Exit? || QuitIn(events[1..])
  {
    if QuitIn(events[1..]) {
      var k :| 0 <= k < |events[1..]| && Classify(events[1..][k].msg).Exit?;
      assert events[k + 1] == events[1..][k];
    }
    if QuitIn(events) && !Classify(events[0].msg).Exit? {
      var k :| 0 <= k < |events| && Classify(events[k].msg).Exit?;
      assert events[1..][k - 1] == events[k];
    }
  }

  lemma ShutdownEndsRight(a: seq<Effect>)
    requires TrayCleanup !in a
    ensures EndsRight(Outcome(a + Shutdown, Exited))
  {
    var b := a + Shutdown;
    assert b[..|b| - |Shutdown|] == a;
  }

  /** EndsRight carried over a prefix without cleanup. */
  lemma PrependEndsRight(a: seq<Effect>, o: Outcome)
    requires TrayCleanup !in a && EndsRight(o)
    ensures EndsRight(Prepend(a, o))
  {
    var b := a + o.effects;
    if o.ending == Exited {
      var p := o.effects[..|o.effects| - |Shutdown|];
      assert b == (a + p) + Shutdown;
      assert b[..|b| - |Shutdown|] == a + p;
    } else if o.ending == Crashed {
      assert b[|b| - 1] == o.effects[|o.effects| - 1];
    }
  }

  lemma ToggleHasNoCleanup(cfg: Config, current: Result<DeviceId, AudioFailure>, switchOk: bool)
    ensures TrayCleanup !in ToggleDevice(cfg, current, switchOk)
  {
  }

  lemma ReconfigureHasNoCleanup(w: World)
    ensures TrayCleanup !in ReconfigureStep(w).0
  {
  }

  /** The message loop's trace ends as EndsRight says. */
  lemma {:induction false} LoopEndsRight(cfg: Config, events: seq<Event>)
    ensures EndsRight(Loop(cfg, events))
    decreases |events|
  {
    if events != [] {
      var e := events[0];
      var rest := events[1..];
      match Classify(e.msg)
      case Toggle =>
        LoopEndsRight(cfg, rest);
        ToggleHasNoCleanup(cfg, e.world.current, e.world.switchOk);
        PrependEndsRight(ToggleDevice(cfg, e.world.current, e.world.switchOk), Loop(cfg, rest));
      case Ignore =>
        LoopEndsRight(cfg, rest);
      case Pass =>
        LoopEndsRight(cfg, rest);
        PrependEndsRight([Dispatch(e.msg)], Loop(cfg, rest));
      case Exit =>
        ShutdownEndsRight([]);
        assert [] + Shutdown == Shutdown;
      case Reconfigure =>
        var (effs, step) := ReconfigureStep(e.world);
        ReconfigureHasNoCleanup(e.world);
        match step
        case Continue(newCfg) =>
          LoopEndsRight(newCfg, rest);
          PrependEndsRight(effs, Loop(newCfg, rest));
        case Leave =>
          ShutdownEndsRight(effs);
        case Stop(_) =>
    }
  }

  /** The message loop never returns from main early, and it is still
      waiting only when no WM_QUIT came. */
  lemma {:induction false} LoopWaits(cfg: Config, events: seq<Event>)
    ensures Loop(cfg, events).ending != Aborted
    ensures Loop(cfg, events).ending == Waiting ==> !QuitIn(events)
    decreases |events|
  {
    if events != [] {
      var e := events[0];
      var rest := events[1..];
      QuitInCons(events);
      match Classify(e.msg)
      case Toggle =>
        LoopWaits(cfg, rest);
      case Ignore =>
        LoopWaits(cfg, rest);
      case Pass =>
        LoopWaits(cfg, rest);
      case Exit =>
      case Reconfigure =>
        var (effs, step) := ReconfigureStep(e.world);
        match step
        case Continue(newCfg) =>
          LoopWaits(newCfg, rest);
        case Leave =>
        case Stop(_) =>
    }
  }

  /** A return before the message loop neither sets up nor cleans up the
      tray. */
  lemma StartAbortsQuietly(start: Start)
    requires StartStep(start).1 == Stop(Aborted)
    ensures TrayCleanup !in StartStep(start).0
    ensures forall k :: 0 <= k < |StartStep(start).0| ==> !StartStep(start).0[k].TraySetup?
  {
  }

  /** How main ends: a return before the message loop ignores every
      message and neither sets up nor cleans up the tray; in every case
      the trace ends as EndsRight says, and main is still waiting only
      when no WM_QUIT came. */
  lemma MainEndings(start: Start, events: seq<Event>)
    ensures Main(start, events).ending == Aborted ==>
      Main(start, events) == Outcome(StartStep(start).0, Aborted) &&
      TrayCleanup !in Main(start, events).effects &&
      forall k :: 0 <= k < |Main(start, events).effects| ==> !Main(start, events).effects[k].TraySetup?
    ensures EndsRight(Main(start, events))
    ensures Main(start, events).ending == Waiting ==> !QuitIn(events)
  {
    var (effs, step) := StartStep(start);
    match step
    case Continue(cfg) =>
      assert TrayCleanup !in effs;
      LoopEndsRight(cfg, events);
      LoopWaits(cfg, events);
      PrependEndsRight(effs, Loop(cfg, events));
    case Leave =>
    case Stop(ending) =>
      if ending == Aborted {
        StartAbortsQuietly(start);
      }
  }

  // ---------------------------------------------------------------------
  // Ordinary messages

  /** Messages that keep the inner loop going: no WM_QUIT and no
      reconfiguration request. */
  predicate Quiet(events: seq<Event>)
  {
    forall k :: 0 <= k < |events| ==>
      !Classify(events[k].msg).Exit? && !Classify(events[k].msg).Reconfigure?
  }

  function Toggles(events: seq<Event>): nat
  {
    if events == [] then 0
    else (if Classify(events[0].msg).Toggle? then 1 else 0) + Toggles(events[1..])
  }

  function Passes(events: seq<Event>): nat
  {
    if events == [] then 0
    else (if Classify(events[0].msg).Pass? then 1 else 0) + Passes(events[1..])
  }

  function Reads(effs: seq<Effect>): nat
  {
    if effs == [] then 0
    else (if effs[0].ReadDefault? then 1 else 0) + Reads(effs[1..])
  }

  function Dispatches(effs: seq<Effect>): nat
  {
    if effs == [] then 0
    else (if effs[0].Dispatch? then 1 else 0) + Dispatches(effs[1..])
  }

  lemma {:induction false} CountsAppend(a: seq<Effect>, b: seq<Effect>)
    ensures Reads(a + b) == Reads(a) + Reads(b)
    ensures Dispatches(a + b) == Dispatches(a) + Dispatches(b)
  {
    if a == [] {
      assert a + b == b;
    } else {
      assert (a + b)[0] == a[0] && (a + b)[1..] == a[1..] + b;
      CountsAppend(a[1..], b);
    }
  }

  lemma ToggleCounts(cfg: Config, current: Result<DeviceId, AudioFailure>, switchOk: bool)
    ensures Reads(ToggleDevice(cfg, current, switchOk)) == 1
    ensures Dispatches(ToggleDevice(cfg, current, switchOk)) == 0
  {
    var t := ToggleDevice(cfg, current, switchOk);
    assert t[0].ReadDefault? && forall k :: 1 <= k < |t| ==> !t[k].ReadDefault? && !t[k].Dispatch?;
    if |t| == 1 {
      assert t[1..] == [];
    } else if |t| == 2 {
      assert t[1..][0] == t[1] && t[1..][1..] == [];
      assert Reads(t[1..]) == 0 && Dispatches(t[1..]) == 0;
    } else {
      assert t[1..][0] == t[1] && t[1..][1..][0] == t[2] && t[1..][1..][1..] == [];
      assert Reads(t[1..][1..]) == 0 && Dispatches(t[1..][1..]) == 0;
      assert Reads(t[1..]) == 0 && Dispatches(t[1..]) == 0;
    }
  }

  /** Ordinary messages are handled one at a time: each toggle request
      reads the default device exactly once, each other message reaches
      DispatchMessageW exactly once, unknown hotkey ids do nothing, and the
      loop is still waiting for more at the end. */
  lemma {:induction false} QuietLoop(cfg: Config, events: seq<Event>)
    requires Quiet(events)
    ensures Loop(cfg, events).ending == Waiting
    ensures Reads(Loop(cfg, events).effects) == Toggles(events)
    ensures Dispatches(Loop(cfg, events).effects) == Passes(events)
    decreases |events|
  {
    if events != [] {
      var e := events[0];
      var rest := events[1..];
      assert !Classify(events[0].msg).Exit? && !Classify(events[0].msg).Reconfigure?;
      assert Quiet(rest) by {
        forall k | 0 <= k < |rest|
          ensures !Classify(rest[k].msg).Exit? && !Classify(rest[k].msg).Reconfigure?
        {
          assert rest[k] == events[k + 1];
        }
      }
      QuietLoop(cfg, rest);
      match Classify(e.msg)
      case Toggle =>
        ToggleCounts(cfg, e.world.current, e.world.switchOk);
        CountsAppend(ToggleDevice(cfg, e.world.current, e.world.switchOk), Loop(cfg, rest).effects);
      case Ignore =>
      case Pass =>
        CountsAppend([Dispatch(e.msg)], Loop(cfg, rest).effects);
    }
  }

  /** WM_QUIT ends the loop at once with the cleanup, whatever follows. */
  lemma QuitCleansUp(cfg: Config, w: World, rest: seq<Event>)
    ensures Loop(cfg, [Event(Quit, w)] + rest) == Outcome(Shutdown, Exited)
  {
  }

  /** A hotkey id other than the two registered ones changes nothing. */
  lemma UnknownHotkeyIgnored(cfg: Config, id: int, w: World, rest: seq<Event>)
    requires id != Hotkey.HOTKEY_TOGGLE && id != Hotkey.HOTKEY_OPTIONS
    ensures Loop(cfg, [Event(HotkeyPressed(id), w)] + rest) == Loop(cfg, rest)
  {
    assert ([Event(HotkeyPressed(id), w)] + rest)[1..] == rest;
  }

  // ---------------------------------------------------------------------
  // Reconfiguration with run_setup as the Setup module computes it

  /** A reconfiguration unregisters before anything else and lists the
      devices next. When its setup result is the one run_setup computes
      from some devices and console input, a completed setup always gets
      past the hotkey parse, so only RegisterHotKey itself can end the
      program there. */
  lemma ReconfigureWithSetup(w: World, devices: Result<seq<Device>, AudioFailure>, input: seq<Line>)
    requires w.setup == SetupResult(devices, input)
    ensures ReconfigureStep(w).0[..2] == [UnregisterAll, ListDevices]
    ensures ReconfigureStep(w).1 == Stop(Crashed) <==> devices.Err?
    ensures w.setup.Configured? ==>
      Hotkey.Register(w.setup.cfg.hotkey, w.registerOk).Called? &&
      ReconfigureStep(w).1 == (if w.registerOk then Continue(w.setup.cfg) else Leave)
  {
    SetupGuarantees(devices, input);
  }
}
