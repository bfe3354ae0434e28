/** The interactive setup of src/main.rs: choosing the two devices by
    number, choosing the hotkey, and the checks of run_setup. Console
    input is a given sequence of lines; printing is not modelled. */
module Setup {
  import opened Results
  import Hotkey

  /** An output device as list_devices reports it. */
  datatype Device = Device(id: string, name: string)

  /** The saved configuration: two device ids and the hotkey text. */
  datatype Config = Config(speakers: string, headphones: string, hotkey: string)

  /** A failure reported by the audio layer. */
  datatype AudioFailure = AudioFailure

  /** What one prompt gets from the console: a line, or a failed flush or
      read (each makes the prompt give up with `None`). */
  datatype Line = Text(s: string) | Failed

  /** read_line: the next line; past the end of input it succeeds with an
      empty line. */
  function NextLine(input: seq<Line>): (r: (Line, seq<Line>))
    ensures input != [] ==> [r.0] + r.1 == input
    ensures input == [] ==> r == (Text(""), [])
  {
    if input == [] then (Text(""), []) else (input[0], input[1..])
  }

  // ---------------------------------------------------------------------
  // `str::parse::<usize>` for a 64-bit usize

  const USIZE_MAX: nat := 0xFFFF_FFFF_FFFF_FFFF

  predicate AllDigits(ds: string)
  {
    forall k :: 0 <= k < |ds| ==> Hotkey.IsAsciiDigit(ds[k])
  }

  function DigitValue(c: char): nat
    requires Hotkey.IsAsciiDigit(c)
  {
    c as int - '0' as int
  }

  function DigitChar(d: nat): (c: char)
    requires d < 10
    ensures Hotkey.IsAsciiDigit(c) && DigitValue(c) == d
  {
    ('0' as int + d) as char
  }

  /** The value of a digit string, most significant digit first. */
  function DigitsValue(ds: string): nat
    requires AllDigits(ds)
  {
    if ds == [] then 0 else DigitsValue(ds[..|ds| - 1]) * 10 + DigitValue(ds[|ds| - 1])
  }

  /** An optional '+', then one or more digits, with a value that fits;
      anything else (empty text, a sign alone, '-', other characters,
      overflow) is an error. */
  function ParseUsize(s: string): (r: Option<nat>)
    ensures r.Some? ==> r.value <= USIZE_MAX
    ensures r.Some? ==> |s| > 0 && (Hotkey.IsAsciiDigit(s[0]) || s[0] == '+')
    ensures r.Some? ==>
      var ds := if s[0] == '+' then s[1..] else s;
      ds != [] && AllDigits(ds) && r.value == DigitsValue(ds)
    ensures
      var ds := if |s| > 0 && s[0] == '+' then s[1..] else s;
      ds != [] && AllDigits(ds) && DigitsValue(ds) <= USIZE_MAX ==> r == Some(DigitsValue(ds))
  {
    var ds := if |s| > 0 && s[0] == '+' then s[1..] else s;
    if ds == [] || !AllDigits(ds) then None
    else if DigitsValue(ds) > USIZE_MAX then None
    else Some(DigitsValue(ds))
  }

  /** The decimal text of a number, the partner of ParseUsize. */
  function Decimal(n: nat): (ds: string)
    ensures ds != [] && AllDigits(ds)
  {
    if n < 10 then [DigitChar(n)] else Decimal(n / 10) + [DigitChar(n % 10)]
  }

  lemma {:induction false} DigitsValueOfDecimal(n: nat)
    ensures DigitsValue(Decimal(n)) == n
  {
    if n >= 10 {
      DigitsValueOfDecimal(n / 10);
      var ds := Decimal(n);
      assert ds[..|ds| - 1] == Decimal(n / 10);
    }
  }

  /** Every number up to the maximum reads back from its decimal text,
      with or without a leading '+'. */
  lemma ParseDecimal(n: nat)
    requires n <= USIZE_MAX
    ensures ParseUsize(Decimal(n)) == Some(n)
    ensures ParseUsize("+" + Decimal(n)) == Some(n)
  {
    DigitsValueOfDecimal(n);
    assert ("+" + Decimal(n))[1..] == Decimal(n);
  }

  // ---------------------------------------------------------------------
  // prompt_device_choice

  /** The 1-based number typed at the prompt, as a 0-based index below
      `max`; None on a failed read, a non-number or a number out of range. */
  function DeviceChoice(line: Line, max: nat): (r: Option<nat>)
    ensures r.Some? <==>
      line.Text? && ParseUsize(Hotkey.Trim(line.s)).Some? && 1 <= ParseUsize(Hotkey.Trim(line.s)).value <= max
    ensures r.Some? ==> r.value < max && r.value + 1 == ParseUsize(Hotkey.Trim(line.s)).value
  {
    match line
    case Failed => None
    case Text(s) =>
      match ParseUsize(Hotkey.Trim(s))
      case None => None
      case Some(n) => if n < 1 || n > max then None else Some(n - 1)
  }

  lemma TrimDecimalLine(n: nat, tail: string)
    requires Hotkey.Blank(tail)
    ensures Hotkey.Trim(Decimal(n) + tail) == Decimal(n)
  {
    var ds := Decimal(n);
    assert Hotkey.Blank("");
    Hotkey.TrimPadded("", ds, tail);
    assert "" + ds + tail == ds + tail;
    Hotkey.TrimUnpadded(ds);
  }

  /** Typing the number k+1 (and the line break) selects index k. */
  lemma ChoiceOfTypedNumber(k: nat, max: nat)
    requires k < max <= USIZE_MAX
    ensures DeviceChoice(Text(Decimal(k + 1) + "\r\n"), max) == Some(k)
  {
    assert Hotkey.Blank("\r\n");
    TrimDecimalLine(k + 1, "\r\n");
    ParseDecimal(k + 1);
    assert ParseUsize(Hotkey.Trim(Decimal(k + 1) + "\r\n")) == Some(k + 1);
  }

  // ---------------------------------------------------------------------
  // prompt_hotkey

  /** The hotkey text a line stands for: trimmed, or the default when
      nothing but white space was typed. */
  function HotkeyCandidate(s: string): (c: string)
    ensures c != []
    ensures c == Hotkey.DEFAULT_HOTKEY || c == Hotkey.Trim(s)
    ensures Hotkey.Trim(s) != [] ==> c == Hotkey.Trim(s)
    ensures Hotkey.Blank(s) ==> c == Hotkey.DEFAULT_HOTKEY
  {
    Hotkey.TrimStartBlank(if Hotkey.Blank(s) then s else [], []);
    assert s + [] == s;
    var t := Hotkey.Trim(s);
    if t == [] then Hotkey.DEFAULT_HOTKEY else t
  }

  /** What prompt_hotkey returns: the first candidate that parses, trying
      line after line; a failed read gives up. At the end of input the
      empty line stands for the default, which parses. */
  function HotkeyAnswer(input: seq<Line>): (r: Option<string>)
    ensures r.Some? ==> Hotkey.Parse(r.value).Ok?
    decreases |input|
  {
    if input == [] then
      Hotkey.DefaultHotkeyParses();
      Some(Hotkey.DEFAULT_HOTKEY)
    else
      match input[0]
      case Failed => None
      case Text(s) =>
        if Hotkey.Parse(HotkeyCandidate(s)).Ok? then Some(HotkeyCandidate(s))
        else HotkeyAnswer(input[1..])
  }

  /** prompt_hotkey (main.rs:198-221): read, trim, default, parse; ask again
      after a parse error. */
  method PromptHotkey(input: seq<Line>) returns (r: Option<string>)
    ensures r == HotkeyAnswer(input)
  {
    var pos := 0;
    while true
      invariant 0 <= pos <= |input|
      invariant HotkeyAnswer(input[pos..]) == HotkeyAnswer(input)
      decreases |input| - pos
    {
      ghost var before := pos;
      var line: Line;
      line, pos := if pos < |input| then input[pos] else Text(""), if pos < |input| then pos + 1 else pos;
      match line
      case Failed =>
        return None;
      case Text(s) =>
        var trimmed := Hotkey.Trim(s);
        var hotkeyStr := if trimmed == [] then Hotkey.DEFAULT_HOTKEY else trimmed;
        var parsed := Hotkey.ParseHotkey(hotkeyStr);
        if before == |input| {
          Hotkey.DefaultHotkeyParses();
          assert input[before..] == [];
        }
        if parsed.Ok? {
          return Some(hotkeyStr);
        }
        assert input[before..][1..] == input[pos..];
    }
  }

  /** A blank answer, or the end of input, gives the default binding. */
  lemma BlankAnswerIsDefault(s: string, rest: seq<Line>)
    requires Hotkey.Trim(s) == []
    ensures HotkeyAnswer([Text(s)] + rest) == Some(Hotkey.DEFAULT_HOTKEY)
    ensures HotkeyAnswer([]) == Some(Hotkey.DEFAULT_HOTKEY)
  {
    Hotkey.DefaultHotkeyParses();
  }

  /** A line that does not parse is skipped: the answer is that of the
      lines after it. */
  lemma InvalidAnswerSkipped(s: string, rest: seq<Line>)
    requires Hotkey.Parse(HotkeyCandidate(s)).Err?
    ensures HotkeyAnswer([Text(s)] + rest) == HotkeyAnswer(rest)
  {
    assert ([Text(s)] + rest)[1..] == rest;
  }

  // ---------------------------------------------------------------------
  // run_setup

  datatype SetupOutcome =
    | Configured(cfg: Config)
    | Cancelled    // run_setup returned None
    | Panicked     // list_devices failed: `expect`

  /** run_setup's answer for the device list and the console lines. */
  function SetupResult(devices: Result<seq<Device>, AudioFailure>, input: seq<Line>): SetupOutcome
  {
    match devices
    case Err(_) => Panicked
    case Ok(devs) =>
      if |devs| < 2 then Cancelled
      else
        var (lineA, afterA) := NextLine(input);
        var (lineB, afterB) := NextLine(afterA);
        match DeviceChoice(lineA, |devs|)
        case None => Cancelled
        case Some(a) =>
          match DeviceChoice(lineB, |devs|)
          case None => Cancelled
          case Some(b) =>
            if a == b then Cancelled
            else
              match HotkeyAnswer(afterB)
              case None => Cancelled
              case Some(hotkeyStr) => Configured(Config(devs[a].id, devs[b].id, hotkeyStr))
  }

  /** run_setup (main.rs:155-196) up to the save, which the caller records. */
  method RunSetup(devices: Result<seq<Device>, AudioFailure>, input: seq<Line>) returns (r: SetupOutcome)
    ensures r == SetupResult(devices, input)
  {
    if devices.Err? {
      return Panicked;
    }
    var devs := devices.value;
    if |devs| < 2 {
      return Cancelled;
    }
    var lineA, afterA := NextLine(input).0, NextLine(input).1;
    var a := DeviceChoice(lineA, |devs|);
    if a.None? {
      return Cancelled;
    }
    var lineB, afterB := NextLine(afterA).0, NextLine(afterA).1;
    var b := DeviceChoice(lineB, |devs|);
    if b.None? {
      return Cancelled;
    }
    if a.value == b.value {
      return Cancelled;
    }
    var hotkeyStr := PromptHotkey(afterB);
    if hotkeyStr.None? {
      return Cancelled;
    }
    return Configured(Config(devs[a.value].id, devs[b.value].id, hotkeyStr.value));
  }

  /** What a completed setup guarantees: at least two devices, two
      different in-range choices whose ids were copied, and a hotkey that
      parses; fewer than two devices always cancels; and it panics exactly
      when the devices cannot be listed. */
  lemma SetupGuarantees(devices: Result<seq<Device>, AudioFailure>, input: seq<Line>)
    ensures SetupResult(devices, input).Panicked? <==> devices.Err?
    ensures devices.Ok? && |devices.value| < 2 ==> SetupResult(devices, input) == Cancelled
    ensures SetupResult(devices, input).Configured? ==>
      var cfg := SetupResult(devices, input).cfg;
      var devs := devices.value;
      |devs| >= 2 && Hotkey.Parse(cfg.hotkey).Ok? &&
      exists a, b :: 0 <= a < |devs| && 0 <= b < |devs| && a != b &&
        cfg.speakers == devs[a].id && cfg.headphones == devs[b].id
  {
    if SetupResult(devices, input).Configured? {
      var devs := devices.value;
      var (lineA, afterA) := NextLine(input);
      var (lineB, afterB) := NextLine(afterA);
      var a := DeviceChoice(lineA, |devs|).value;
      var b := DeviceChoice(lineB, |devs|).value;
      assert 0 <= a < |devs| && 0 <= b < |devs| && a != b;
    }
  }

  /** Two answers that pick the same device cancel the setup, however
      each is written ("2" then " 02", say). */
  lemma SameChoiceCancels(devs: seq<Device>, input: seq<Line>, k: nat)
    requires |devs| >= 2
    requires DeviceChoice(NextLine(input).0, |devs|) == Some(k)
    requires DeviceChoice(NextLine(NextLine(input).1).0, |devs|) == Some(k)
    ensures SetupResult(Ok(devs), input) == Cancelled
  {
  }
}
