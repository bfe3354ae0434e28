/** The control flow of src/main.rs: which device a toggle switches to,
    how each window message is handled, and the reconfiguration that
    unregisters the hotkeys, reruns setup and registers them again. The
    audio layer, RegisterHotKey, the tray and the console are outside the
    model, and so is how run_setup reaches its result (that is the Setup
    module's SetupResult): every message comes with the replies they give while it is
    handled, and what the program does to them is recorded as a sequence
    of effects. */
module Switcher {
  import opened Results
  import Hotkey
  import opened Setup

  type DeviceId = string

  // ---------------------------------------------------------------------
  // Effects on the outside world, in the order the program performs them

  datatype Effect =
    | ReadDefault(reply: Result<DeviceId, AudioFailure>)  // audio::get_default_device_id
    | SwitchDefault(target: DeviceId, ok: bool)           // audio::set_default_device
    | ListDevices                                         // audio::list_devices in run_setup
    | SaveConfig(cfg: Config)                             // config::save
    | RegisterToggle(registration: Hotkey.Registration)   // hotkey::register
    | RegisterOptions(options: Hotkey.Hotkey)             // hotkey::register_options: Ctrl+O
    | UnregisterAll                                       // hotkey::unregister
    | TraySetup(isSpeakers: bool)                         // tray::setup
    | TrayUpdate(isSpeakers: bool)                        // tray::update_state
    | TrayCleanup                                         // tray::cleanup
    | Dispatch(msg: Message)                              // DispatchMessageW

  /** A message as GetMessageW delivers it. */
  datatype Message =
    | HotkeyPressed(id: int)   // WM_HOTKEY with the hotkey id in wParam
    | AppToggle                // tray::WM_APP_TOGGLE
    | AppReconfigure           // tray::WM_APP_RECONFIGURE
    | Quit                     // WM_QUIT: GetMessageW returns false
    | Other(code: int)         // any other message

  /** The replies the outside world gives while one message is handled. */
  datatype World = World(
    current: Result<DeviceId, AudioFailure>,  // get_default_device_id
    switchOk: bool,                           // set_default_device
    registerOk: bool,                         // RegisterHotKey for the toggle key
    setup: SetupOutcome)                      // what run_setup returns, when it runs

  datatype Event = Event(msg: Message, world: World)

  /** What the program finds at start: the loaded configuration, if any,
      and the replies during startup. */
  datatype Start = Start(loaded: Option<Config>, world: World)

  datatype Ending =
    | Exited    // left the message loop, cleaned up the tray, unregistered
    | Aborted   // returned from main before the message loop
    | Crashed   // list_devices failed inside run_setup
    | Waiting   // blocked in GetMessageW for the next message

  datatype Outcome = Outcome(effects: seq<Effect>, ending: Ending)

  function Prepend(effs: seq<Effect>, o: Outcome): Outcome
  {
    Outcome(effs + o.effects, o.ending)
  }

  // ---------------------------------------------------------------------
  // is_current_speakers and toggle_device

  /** is_current_speakers: the default device is the configured speakers;
      a failed read counts as speakers. */
  function IsCurrentSpeakers(cfg: Config, current: Result<DeviceId, AudioFailure>): (b: bool)
    ensures current.Ok? ==> (b <==> current.value == cfg.speakers)
    ensures current.Err? ==> b
  {
    match current
    case Ok(id) => id == cfg.speakers
    case Err(_) => true
  }

  /** The device toggle_device switches to, and whether it is the speakers. */
  function Target(cfg: Config, current: DeviceId): (r: (DeviceId, bool))
    ensures r.0 == cfg.speakers || r.0 == cfg.headphones
    ensures r.1 <==> current != cfg.speakers
    ensures cfg.speakers != cfg.headphones ==> (r.1 <==> r.0 == cfg.speakers)
    ensures cfg.speakers != cfg.headphones && (current == cfg.speakers || current == cfg.headphones) ==>
      r.0 != current
  {
    if current == cfg.speakers then (cfg.headphones, false) else (cfg.speakers, true)
  }

  /** toggle_device's effects: read the current device and stop if that
      fails; otherwise switch to the other preset, and update the tray only
      when the switch succeeded. */
  function ToggleDevice(cfg: Config, current: Result<DeviceId, AudioFailure>, switchOk: bool): (effs: seq<Effect>)
    ensures |effs| >= 1 && effs[0] == ReadDefault(current)
    ensures |effs| == (if current.Err? then 1 else if switchOk then 3 else 2)
    ensures current.Err? ==> effs == [ReadDefault(current)]
    ensures current.Ok? ==> |effs| >= 2 && effs[1].SwitchDefault? && effs[1].ok == switchOk
    ensures current.Ok? ==>
      effs[1].target == (if current.value == cfg.speakers then cfg.headphones else cfg.speakers)
    ensures (exists k :: 0 <= k < |effs| && effs[k].TrayUpdate?) <==> current.Ok? && switchOk
    ensures forall k :: 0 <= k < |effs| && effs[k].TrayUpdate? ==>
      k == 2 && effs[k].isSpeakers == (current.value != cfg.speakers)
  {
    match current
    case Err(_) => [ReadDefault(current)]
    case Ok(id) =>
      var (target, toSpeakers) := Target(cfg, id);
      var effs := [ReadDefault(current), SwitchDefault(target, switchOk)];
      if switchOk then
        assert (effs + [TrayUpdate(toSpeakers)])[2].TrayUpdate?;
        effs + [TrayUpdate(toSpeakers)]
      else effs
  }

  /** With two different presets, two successful toggles from the speakers
      come back to the speakers, and from any third device the first toggle
      goes to the speakers. */
  lemma TogglesAlternate(cfg: Config, third: DeviceId)
    requires cfg.speakers != cfg.headphones
    requires third != cfg.speakers && third != cfg.headphones
    ensures ToggleDevice(cfg, Ok(cfg.speakers), true)[1].target == cfg.headphones
    ensures ToggleDevice(cfg, Ok(cfg.headphones), true)[1].target == cfg.speakers
    ensures ToggleDevice(cfg, Ok(third), true)[1].target == cfg.speakers
  {
  }

  /** After a successful switch the tray shows what is_current_speakers
      would now report, when the presets differ. */
  lemma TrayAgreesAfterToggle(cfg: Config, id: DeviceId)
    requires cfg.speakers != cfg.headphones
    ensures IsCurrentSpeakers(cfg, Ok(Target(cfg, id).0)) == Target(cfg, id).1
  {
  }

  // ---------------------------------------------------------------------
  // The message loop, stated as functions

  datatype Action = Toggle | Reconfigure | Ignore | Pass | Exit

  /** The inner loop's `match msg.message`. */
  function Classify(m: Message): (a: Action)
    ensures a == Exit <==> m == Quit
    ensures a == Pass <==> m.Other?
    ensures a == Toggle <==> m == AppToggle || m == HotkeyPressed(Hotkey.HOTKEY_TOGGLE)
    ensures a == Reconfigure <==> m == AppReconfigure || m == HotkeyPressed(Hotkey.HOTKEY_OPTIONS)
    ensures a == Ignore <==> m.HotkeyPressed? && m.id != Hotkey.HOTKEY_TOGGLE && m.id != Hotkey.HOTKEY_OPTIONS
  {
    match m
    case HotkeyPressed(id) =>
      if id == Hotkey.HOTKEY_TOGGLE then Toggle
      else if id == Hotkey.HOTKEY_OPTIONS then Reconfigure
      else Ignore
    case AppToggle => Toggle
    case AppReconfigure => Reconfigure
    case Quit => Exit
    case Other(_) => Pass
  }

  /** tray::cleanup and hotkey::unregister after the loop. */
  const Shutdown: seq<Effect> := [TrayCleanup, UnregisterAll]

  /** run_setup with what it does outside: it lists the devices and saves
      a completed configuration. */
  function SetupStep(w: World): (seq<Effect>, SetupOutcome)
  {
    var outcome := w.setup;
    ([ListDevices] + (if outcome.Configured? then [SaveConfig(outcome.cfg)] else []), outcome)
  }

  /** Where the program goes after startup or a reconfiguration: on with
      a configuration, out of the outer loop to the cleanup, or out of main
      at once. */
  datatype Step = Continue(cfg: Config) | Leave | Stop(ending: Ending)

  /** How a round of the outer loop ends: round again, leave the loop for
      the cleanup, or return from main. */
  datatype After = Again | Cleanup | Finish(ending: Ending)

  /** main up to the message loop (main.rs:33-57): the configuration,
      loaded or set up; the initial state; the hotkeys; the tray. The
      start never goes to the cleanup: each of its failures returns from
      main at once. */
  function StartStep(start: Start): (r: (seq<Effect>, Step))
    ensures !r.1.Leave?
  {
    var w := start.world;
    var (setupEffs, outcome) :=
      if start.loaded.Some? then ([], Configured(start.loaded.value)) else SetupStep(w);
    match outcome
    case Panicked => (setupEffs, Stop(Crashed))
    case Cancelled => (setupEffs, Stop(Aborted))
    case Configured(cfg) =>
      var isSpeakers := IsCurrentSpeakers(cfg, w.current);
      var reg := Hotkey.Register(cfg.hotkey, w.registerOk);
      var effs := setupEffs + [ReadDefault(w.current), RegisterToggle(reg)];
      if !Hotkey.Registered(reg) then (effs, Stop(Aborted))
      else (effs + [RegisterOptions(Hotkey.OPTIONS_HOTKEY), TraySetup(isSpeakers)], Continue(cfg))
  }

  /** The reconfiguration after the inner loop (main.rs:90-112): clear the
      flag, unregister, rerun setup, then replace the configuration, read
      the state, register again and update the tray. */
  function ReconfigureStep(w: World): (seq<Effect>, Step)
  {
    var (setupEffs, outcome) := SetupStep(w);
    var effs := [UnregisterAll] + setupEffs;
    match outcome
    case Panicked => (effs, Stop(Crashed))
    case Cancelled => (effs, Leave)
    case Configured(cfg) =>
      var isSpeakers := IsCurrentSpeakers(cfg, w.current);
      var reg := Hotkey.Register(cfg.hotkey, w.registerOk);
      var effs' := effs + [ReadDefault(w.current), RegisterToggle(reg)];
      if !Hotkey.Registered(reg) then (effs', Leave)
      else (effs' + [RegisterOptions(Hotkey.OPTIONS_HOTKEY), TrayUpdate(isSpeakers)], Continue(cfg))
  }

  /** The message loop from the given configuration over the messages still
      to come. */
  function Loop(cfg: Config, events: seq<Event>): Outcome
    decreases |events|
  {
    if events == [] then Outcome([], Waiting)
    else
      var e := events[0];
      match Classify(e.msg)
      case Toggle => Prepend(ToggleDevice(cfg, e.world.current, e.world.switchOk), Loop(cfg, events[1..]))
      case Ignore => Loop(cfg, events[1..])
      case Pass => Prepend([Dispatch(e.msg)], Loop(cfg, events[1..]))
      case Exit => Outcome(Shutdown, Exited)
      case Reconfigure =>
        var (effs, step) := ReconfigureStep(e.world);
        match step
        case Continue(newCfg) => Prepend(effs, Loop(newCfg, events[1..]))
        case Leave => Outcome(effs + Shutdown, Exited)
        case Stop(ending) => Outcome(effs, ending)
  }

  /** One message handled in the loop, for the messages that keep it going. */
  lemma LoopStep(cfg: Config, events: seq<Event>, i: nat)
    requires i < |events|
    ensures Classify(events[i].msg).Toggle? ==>
      Loop(cfg, events[i..]) == Prepend(ToggleDevice(cfg, events[i].world.current, events[i].world.switchOk), Loop(cfg, events[i + 1..]))
    ensures Classify(events[i].msg).Ignore? ==> Loop(cfg, events[i..]) == Loop(cfg, events[i + 1..])
    ensures Classify(events[i].msg).Pass? ==>
      Loop(cfg, events[i..]) == Prepend([Dispatch(events[i].msg)], Loop(cfg, events[i + 1..]))
    ensures Classify(events[i].msg).Exit? ==> Loop(cfg, events[i..]) == Outcome(Shutdown, Exited)
    ensures Classify(events[i].msg).Reconfigure? ==>
      var (effs, step) := ReconfigureStep(events[i].world);
      Loop(cfg, events[i..]) ==
        match step
        case Continue(newCfg) => Prepend(effs, Loop(newCfg, events[i + 1..]))
        case Leave => Outcome(effs + Shutdown, Exited)
        case Stop(ending) => Outcome(effs, ending)
  {
    assert events[i..][0] == events[i];
    assert events[i..][1..] == events[i + 1..];
  }

  /** The messages the inner loop handles without leaving it. */
  lemma OrdinaryStep(cfg: Config, events: seq<Event>, i: nat)
    requires i < |events|
    ensures Classify(events[i].msg).Toggle? ==>
      Loop(cfg, events[i..]) == Prepend(ToggleDevice(cfg, events[i].world.current, events[i].world.switchOk), Loop(cfg, events[i + 1..]))
    ensures Classify(events[i].msg).Ignore? ==> Loop(cfg, events[i..]) == Loop(cfg, events[i + 1..])
    ensures Classify(events[i].msg).Pass? ==>
      Loop(cfg, events[i..]) == Prepend([Dispatch(events[i].msg)], Loop(cfg, events[i + 1..]))
  {
    LoopStep(cfg, events, i);
  }

  /** WM_QUIT in the loop: the cleanup, and nothing after it. */
  lemma ExitAt(cfg: Config, events: seq<Event>, i: nat)
    requires i < |events| && Classify(events[i].msg).Exit?
    ensures Loop(cfg, events[i..]) == Outcome(Shutdown, Exited)
  {
    assert events[i..][0] == events[i];
  }

  /** A reconfiguration request in the loop, by what the reconfiguration
      gives. */
  lemma ReconfigureAt(cfg: Config, events: seq<Event>, i: nat)
    requires i < |events| && Classify(events[i].msg).Reconfigure?
    ensures var (effs, step) := ReconfigureStep(events[i].world);
      (step.Continue? ==> Loop(cfg, events[i..]) == Prepend(effs, Loop(step.cfg, events[i + 1..]))) &&
      (step.Leave? ==> Loop(cfg, events[i..]) == Prepend(effs, Outcome(Shutdown, Exited))) &&
      (step.Stop? ==> Loop(cfg, events[i..]) == Outcome(effs, step.ending))
  {
    assert events[i..][0] == events[i];
    assert events[i..][1..] == events[i + 1..];
  }

  lemma PrependPrepend(a: seq<Effect>, b: seq<Effect>, o: Outcome)
    ensures Prepend(a, Prepend(b, o)) == Prepend(a + b, o)
  {
    assert a + (b + o.effects) == (a + b) + o.effects;
  }

  /** The whole of main. */
  function Main(start: Start, events: seq<Event>): Outcome
  {
    var (effs, step) := StartStep(start);
    match step
    case Continue(cfg) => Prepend(effs, Loop(cfg, events))
    // StartStep never leaves; this arm only completes the match
    case Leave => Outcome(effs + Shutdown, Exited)
    case Stop(ending) => Outcome(effs, ending)
  }

  // ---------------------------------------------------------------------
  // main as a program: the RECONFIGURE flag and the mutable configuration

  class App {
    /** The configuration in use; replaced by a reconfiguration. */
    var cfg: Config
    /** The RECONFIGURE flag. */
    var reconfigure: bool
    /** Everything done to the outside world so far. */
    var effects: seq<Effect>

    constructor ()
      ensures !reconfigure && effects == []
    {
      cfg := Config("", "", "");
      reconfigure := false;
      effects := [];
    }

    /** The first part of main (main.rs:33-57). */
    method Startup(start: Start) returns (step: Step)
      modifies this
      ensures (effects, step) == StartStep(start)
      ensures step.Continue? ==> cfg == step.cfg
      ensures !reconfigure
    {
      reconfigure := false;
      var w := start.world;
      var outcome: SetupOutcome;
      if start.loaded.Some? {
        outcome := Configured(start.loaded.value);
        effects := [];
      } else {
        outcome := w.setup;
        effects := [ListDevices] + (if outcome.Configured? then [SaveConfig(outcome.cfg)] else []);
      }
      match outcome {
        case Panicked =>
          assert StartStep(start) == (effects, Stop(Crashed));
          return Stop(Crashed);
        case Cancelled =>
          assert StartStep(start) == (effects, Stop(Aborted));
          return Stop(Aborted);
        case Configured(c) =>
          cfg := c;
      }
      var isSpeakers := IsCurrentSpeakers(cfg, w.current);
      var reg := Hotkey.Register(cfg.hotkey, w.registerOk);
      assert effects == (if start.loaded.Some? then [] else SetupStep(w).0);
      effects := effects + [ReadDefault(w.current), RegisterToggle(reg)];
      if !Hotkey.Registered(reg) {
        assert StartStep(start) == (effects, Stop(Aborted));
        return Stop(Aborted);
      }
      effects := effects + [RegisterOptions(Hotkey.OPTIONS_HOTKEY), TraySetup(isSpeakers)];
      assert StartStep(start) == (effects, Continue(cfg));
      return Continue(cfg);
    }

    /** The inner `while GetMessageW` loop (main.rs:63-82): toggles and
        dispatches until WM_QUIT or a reconfiguration request, which sets
        the flag; it stops at that message, or when none is left. */
    method Pump(events: seq<Event>, from: nat, ghost goal: Outcome) returns (i: nat)
      requires from <= |events| && !reconfigure
      requires Prepend(effects, Loop(cfg, events[from..])) == goal
      modifies this`effects, this`reconfigure
      ensures from <= i <= |events|
      ensures Prepend(effects, Loop(cfg, events[i..])) == goal
      ensures i < |events| ==> Classify(events[i].msg).Exit? || Classify(events[i].msg).Reconfigure?
      ensures reconfigure <==> i < |events| && Classify(events[i].msg).Reconfigure?
    {
      i := from;
      while i < |events|
        invariant from <= i <= |events| && !reconfigure
        invariant Prepend(effects, Loop(cfg, events[i..])) == goal
        decreases |events| - i
      {
        var leave := Handle(events, i, goal);
        if leave {
          return;
        }
        i := i + 1;
      }
    }

    /** One message of the inner loop (main.rs:64-81). A toggle or a
        dispatch adds its effects and the loop goes on; WM_QUIT and a
        reconfiguration request leave it, the request setting the flag. */
    method Handle(events: seq<Event>, i: nat, ghost goal: Outcome) returns (leave: bool)
      requires i < |events| && !reconfigure
      requires Prepend(effects, Loop(cfg, events[i..])) == goal
      modifies this`effects, this`reconfigure
      ensures leave <==> Classify(events[i].msg).Exit? || Classify(events[i].msg).Reconfigure?
      ensures leave ==> effects == old(effects) && (reconfigure <==> Classify(events[i].msg).Reconfigure?)
      ensures !leave ==> !reconfigure
      ensures !leave ==> Prepend(effects, Loop(cfg, events[i + 1..])) == goal
    {
      var e := events[i];
      OrdinaryStep(cfg, events, i);
      match e.msg {
        case HotkeyPressed(id) =>
          if id == Hotkey.HOTKEY_TOGGLE {
            PrependPrepend(effects, ToggleDevice(cfg, e.world.current, e.world.switchOk), Loop(cfg, events[i + 1..]));
            effects := effects + ToggleDevice(cfg, e.world.current, e.world.switchOk);
          } else if id == Hotkey.HOTKEY_OPTIONS {
            reconfigure := true;
            return true;
          }
        case AppToggle =>
          PrependPrepend(effects, ToggleDevice(cfg, e.world.current, e.world.switchOk), Loop(cfg, events[i + 1..]));
          effects := effects + ToggleDevice(cfg, e.world.current, e.world.switchOk);
        case AppReconfigure =>
          reconfigure := true;
          return true;
        case Quit =>
          return true;
        case Other(_) =>
          PrependPrepend(effects, [Dispatch(e.msg)], Loop(cfg, events[i + 1..]));
          effects := effects + [Dispatch(e.msg)];
      }
      return false;
    }

    /** The reconfiguration (main.rs:91-111): clear the flag, unregister,
        rerun setup, then take the new configuration, read the state,
        register again and update the tray. */
    method Reconfigure(w: World) returns (step: Step)
      modifies this
      ensures effects == old(effects) + ReconfigureStep(w).0 && step == ReconfigureStep(w).1
      ensures step.Continue? ==> cfg == step.cfg
      ensures !reconfigure
    {
      reconfigure := false;
      var done := [UnregisterAll];
      var next := w.setup;
      done := done + [ListDevices] + (if next.Configured? then [SaveConfig(next.cfg)] else []);
      assert done == [UnregisterAll] + SetupStep(w).0;
      match next {
        case Panicked =>
          effects := effects + done;
          return Stop(Crashed);
        case Cancelled =>
          effects := effects + done;
          return Leave;
        case Configured(newCfg) =>
          cfg := newCfg;
      }
      var isSpk := IsCurrentSpeakers(cfg, w.current);
      var again := Hotkey.Register(cfg.hotkey, w.registerOk);
      done := done + [ReadDefault(w.current), RegisterToggle(again)];
      if !Hotkey.Registered(again) {
        effects := effects + done;
        return Leave;
      }
      done := done + [RegisterOptions(Hotkey.OPTIONS_HOTKEY), TrayUpdate(isSpk)];
      effects := effects + done;
      return Continue(cfg);
    }

    /** One round of main's outer loop (main.rs:60-112): the inner loop,
        then either the way out or a reconfiguration. With `goal` the
        remaining run, the effects so far followed by what is left are
        still `goal`. */
    method Round(events: seq<Event>, from: nat, ghost goal: Outcome) returns (i: nat, after: After)
      requires from <= |events| && !reconfigure
      requires Prepend(effects, Loop(cfg, events[from..])) == goal
      modifies this
      ensures !reconfigure
      ensures after.Again? ==> from < i <= |events| && Prepend(effects, Loop(cfg, events[i..])) == goal
      ensures after.Cleanup? ==> Prepend(effects, Outcome(Shutdown, Exited)) == goal
      ensures after.Finish? ==> Outcome(effects, after.ending) == goal
    {
      i := Pump(events, from, goal);
      if i == |events| {
        assert events[i..] == [];
        return i, Finish(Waiting);
      }
      var e := events[i];
      var exited := !reconfigure;
      if exited {
        ExitAt(cfg, events, i);
        return i, Cleanup;
      }
      ReconfigureAt(cfg, events, i);
      i := i + 1;
      ghost var before := effects;
      var next := Reconfigure(e.world);
      match next {
        case Stop(crash) =>
          return i, Finish(crash);
        case Leave =>
          PrependPrepend(before, ReconfigureStep(e.world).0, Outcome(Shutdown, Exited));
          return i, Cleanup;
        case Continue(_) =>
          PrependPrepend(before, ReconfigureStep(e.world).0, Loop(cfg, events[i..]));
          return i, Again;
      }
    }

    /** main (main.rs:24-117): startup, then the outer loop around the
        message loop with a reconfiguration after each request; WM_QUIT, a
        cancelled setup or a failed registration leave the outer loop for
        the cleanup. The flag is clear whenever main ends. */
    method Run(start: Start, events: seq<Event>) returns (ending: Ending)
      modifies this
      ensures Outcome(effects, ending) == Main(start, events)
      ensures !reconfigure
    {
      var step := Startup(start);
      match step {
        case Stop(e) =>
          return e;
        case Leave =>
          // the start never leaves (StartStep's first ensures)
          assert false;
        case Continue(_) =>
      }
      ghost var goal := Main(start, events);
      assert Prepend(effects, Loop(cfg, events)) == goal;
      assert events[0..] == events;
      var i := 0;
      while true
        invariant 0 <= i <= |events| && !reconfigure
        invariant Prepend(effects, Loop(cfg, events[i..])) == goal
        decreases |events| - i
      {
        var after;
        i, after := Round(events, i, goal);
        match after {
          case Again =>
          case Cleanup =>
            break;
          case Finish(e) =>
            return e;
        }
      }
      effects := effects + Shutdown;
      return Exited;
    }
  }
}
