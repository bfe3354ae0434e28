# audio-output-switcher, modelled in Dafny

audio-output-switcher is a Windows tray program. It switches the default
audio output between two configured devices, "speakers" and "headphones",
when a global hotkey is pressed. This project models its sequential core:

- **Hotkey** (`hotkey.dfy`): `parse_hotkey` turns text such as
  `"Ctrl+Alt+S"` into a modifier mask and one virtual-key code.
  `key_name_to_vk` is its key table. `register` parses before it calls
  RegisterHotKey.
- **Tray** (`tray.dfy`, with `utf16.dfy`): `load_icon_from_ico` reads the
  ICO directory and picks the entry for the 16-pixel tray icon. Also the
  128-unit tooltip buffer and `wide_str`'s NUL-terminated UTF-16.
- **Setup** (`setup.dfy`): the console dialogue of `run_setup`. It covers
  choosing two devices by number (`prompt_device_choice`) and asking for a
  hotkey until one parses (`prompt_hotkey`).
- **Switcher** (`switcher.dfy`): `is_current_speakers`, `toggle_device`,
  and `main`'s message loop with its reconfiguration. `main` is written
  twice. `Switcher.Main` is a function from the start state and the message
  sequence to the effects produced and how the program ends. `Switcher.App`
  is a class whose fields are the mutable `cfg`, the `RECONFIGURE` flag and
  the effects so far; its methods follow `main`'s loops and are proved
  equal to the function.
- **Trace** (`trace.dfy`): what `Switcher.Main` guarantees about the order
  of effects, about how the program ends, and about runs of ordinary
  messages.

The audio layer, RegisterHotKey, the tray and the console are not modelled.
They appear only as the replies they give. Each message comes with an
`Event` record: what `get_default_device_id` returns, whether
`set_default_device` and RegisterHotKey succeed, and what `run_setup`
returns if it runs. What the program does to the outside world is
recorded as a sequence of `Effect`s. Console input is a sequence of lines.
If the sequence of messages ends, the program is still blocked in
GetMessageW (`Waiting`).

## Model

| member | source | states |
|---|---|---|
| Hotkey.KeyNameToVk | src/hotkey.rs:41-82 | A single ASCII letter maps to its upper-case code and a single digit to its own code. Any other name must be in the table of F1-F12, SPACE and the eleven punctuation keys. A name outside the table gives `UnknownKey(name)`. A success is never key code 0. |
| Hotkey.KeyNameRoundTrip | src/hotkey.rs:43-81 | The reverse table's name for the code of an accepted name is that name upper-cased. |
| Hotkey.KeyNameSound | src/hotkey.rs:54-81 | Every table name parses back to its own code. |
| Hotkey.NamedKeyRoundTrip | src/hotkey.rs:54-81 | Every name in the table of function, space and punctuation keys has no lower-case letter, and its code leads back to it in the reverse table. |
| Hotkey.KeyNamesInjective | src/hotkey.rs:43-81 | Two names give the same code only if they agree after upper-casing. |
| Hotkey.ErrorTextInjective | src/hotkey.rs:24-80 | The error texts of parse_hotkey and key_name_to_vk lose nothing: two errors with the same text are the same error. |
| Hotkey.SplitJoin | src/hotkey.rs:16 | `split('+')` loses nothing: joining the pieces with '+' restores the text, and no piece contains '+'. |
| Hotkey.SplitUpper | src/hotkey.rs:16-17 | Splitting the upper-cased text gives the upper-cased pieces: upper-casing and splitting on '+' commute. |
| Hotkey.TrimPadded | src/hotkey.rs:17 | `trim` drops any white space padding on either side of a piece. |
| Hotkey.PaddingIgnored | src/hotkey.rs:16-17 | Padding the '+'-separated pieces with white space never changes the parse. |
| Hotkey.ParseHotkey | src/hotkey.rs:12-39 | The loop over the pieces computes `Hotkey.Parse`. No key token gives NoKey. An unknown first key gives UnknownKey. A second key gives MultipleKeys. Otherwise the result is the key plus MOD_NOREPEAT OR-ed with every named modifier. |
| Hotkey.Feed | src/hotkey.rs:17-30 | One pass of the loop. A modifier ORs its bit into the mask, and the first key is looked up. If the lookup fails or a second key turns up, the pass stops with exactly the error the whole parse gives. Otherwise the state after the pass is the mask and key of the tokens so far. |
| Hotkey.ScannedAll | src/hotkey.rs:34-38 | After every token is scanned without error, the parse is NoKey when no key was seen, and otherwise the mask and the key collected. |
| Hotkey.SecondKeyStops | src/hotkey.rs:22-28 | After one valid key, the next non-modifier token ends the parse with MultipleKeys for that token. |
| Hotkey.FirstKeyUnknownStops | src/hotkey.rs:29 | The first non-modifier token, if it is not a key, ends the parse with its UnknownKey error. |
| Hotkey.ParseOkMask | src/hotkey.rs:13-21 | On success MOD_NOREPEAT is set. A modifier bit is set exactly when some token names that modifier. No other bit is set. The key code is not 0. |
| Hotkey.ParseOkIff | src/hotkey.rs:22-38 | Parsing succeeds exactly when there is one non-modifier token and it is a known key. That key's code is the result. |
| Hotkey.EmptyPieceRejected | src/hotkey.rs:16-17 | An empty or blank piece, as in "Ctrl++S" or "Ctrl+", makes the parse fail. |
| Hotkey.ModifierOrderIrrelevant | src/hotkey.rs:16-21 | Two token sequences give the same result when they have the same tokens and the same key tokens in the same order. Modifier order and repetition do not matter. |
| Hotkey.ParseIgnoresCase | src/hotkey.rs:17 | Upper-casing the input (ASCII) does not change the parse. |
| Hotkey.PaddedLowerCaseParses | src/hotkey.rs:16-21 | "ctrl + alt + s" parses exactly as the default "Ctrl+Alt+S". |
| Hotkey.DefaultHotkeyParses | src/main.rs:207-210 | The default "Ctrl+Alt+S" parses to MOD_NOREPEAT, MOD_CONTROL and MOD_ALT with key 0x53. |
| Hotkey.OptionsHotkeyIsCtrlO | src/hotkey.rs:94-103 | The mask MOD_CONTROL with MOD_NOREPEAT and key 0x4F that `register_options` registers is what "Ctrl+O" parses to. |
| Hotkey.Register | src/hotkey.rs:85-91 | `register` is rejected exactly when the parse fails, and with the parse's error. Otherwise RegisterHotKey is called with the parsed key, and the result is what RegisterHotKey returns. |
| Tray.U32LE | src/tray.rs:157-168 | Four little-endian bytes give a value below 2^32. |
| Tray.U32OfLE32 | src/tray.rs:157-168 | Reading back the little-endian bytes of a 32-bit value gives that value. |
| Tray.LE32OfU32 | src/tray.rs:157-168 | Writing a read value back as little-endian gives the same four bytes. |
| Tray.EntryAt | src/tray.rs:155-170 | An entry's width is from 1 to 255, with byte 0 read as 255. Its size and offset are 32-bit values read at +8 and +12 from byte 6+16i. |
| Tray.EntriesAt | src/tray.rs:154-168 | The i-th entry of the directory of `count` entries is the one read at 6+16i. |
| Tray.ScanInvariant | src/tray.rs:150-179 | After every step of the selection loop, `best_w` is at least 16. It is 255 while nothing has been chosen, and the chosen entry's width once something has. It is 16 exactly when some entry so far is 16 wide. |
| Tray.ScanPicksPreferred | src/tray.rs:150-179 | Nothing is chosen exactly when no entry is 16 to 254 wide. If some entry is 16 wide, the last such entry is chosen. Otherwise the first entry of least width between 17 and 254 is chosen. The chosen entry is at least 16 wide. |
| Tray.ScanNext | src/tray.rs:172-179 | One more entry changes the selection exactly when the replacement test holds for its width. Then that entry becomes the chosen one. |
| Tray.ThirdClauseDead | src/tray.rs:174 | The third clause of the replacement test ("otherwise largest") can never be true. |
| Tray.PreferredUnique | src/tray.rs:172-179 | The preferred entry is unique. |
| Tray.ImageSlice | src/tray.rs:182 | The slice `[offset, offset+size)` exists exactly when it lies within the data and `offset+size` does not overflow u32. Then it is those bytes. |
| Tray.LoadIconImage | src/tray.rs:144-182 | The loop over the directory computes `Tray.LoadIcon`. The errors are: header shorter than 6 bytes, directory past the end, overflowing slice, slice out of bounds. |
| Tray.SelectEntry | src/tray.rs:150-180 | The selection loop fails exactly when the directory runs past the data. Otherwise it chooses what `Tray.Scan` chooses, and it returns that entry's offset and size, or 0 and 0 when nothing is chosen. |
| Tray.ReadEntry | src/tray.rs:155-171 | Reading the sixteen bytes of an entry gives `Tray.EntryAt`: the width with 0 read as 255, then the size and the offset. |
| Tray.LoadIconSelects | src/tray.rs:144-182 | The icon bytes are the slice of the preferred entry. If no entry qualifies they are the empty slice at offset 0. The header and directory error cases are also covered. |
| Tray.Padded | src/tray.rs:91-93 | The tooltip buffer has 128 units. The text fills its prefix and every other unit is 0. |
| Tray.FillTip | src/tray.rs:239-241 | Filling the array in place gives the padded buffer. Text longer than 128 units is refused, where the source would panic. |
| Tray.TipReadsBack | src/tray.rs:233-241 | Both tooltip texts fit and are distinct. Read up to the first NUL, the buffer decodes back to the text. |
| Tray.WideStr | src/tray.rs:288-290 | `wide_str` ends with a 0, and the units before it decode back to the string. |
| Tray.WideStrTerminated | src/tray.rs:288-290 | For a string without NUL, `wide_str` ends with exactly one 0 and has no other 0. Read up to that 0, it decodes back to the string. |
| Utf16.Encode | src/tray.rs:240 | `encode_utf16` gives one or two units per character. |
| Utf16.DecodeEncode | src/tray.rs:240 | Decoding undoes `encode_utf16`. |
| Utf16.EncodeHasNoZero | src/tray.rs:289 | A string without NUL encodes without a zero unit. |
| Utf16.UntilNulOfTerminated | src/tray.rs:289 | Reading up to the first 0 of `p + [0] + rest` gives `p` when `p` has no 0. |
| Setup.NextLine | src/main.rs:203-204 | A read takes the first line and leaves the rest; past the end of input it gives an empty line. |
| Setup.ParseUsize | src/main.rs:230 | `str::parse::<usize>` accepts exactly an optional '+' followed by one or more digits whose value is at most 2^64-1, leading zeros included, and the result is that value. |
| Setup.ParseDecimal | src/main.rs:230 | The canonical decimal numeral of every number up to 2^64-1, with or without '+', parses to that number. |
| Setup.DeviceChoice | src/main.rs:223-237 | A choice is made exactly when the line was read and its trimmed text is a number n with 1 <= n <= max. The choice is n-1, so it is below max. |
| Setup.ChoiceOfTypedNumber | src/main.rs:228-236 | Typing k+1 and Enter chooses entry k. |
| Setup.HotkeyCandidate | src/main.rs:205-211 | The candidate is never empty: it is the trimmed line, or "Ctrl+Alt+S" when the line trims to nothing, in particular when it is all white space. |
| Setup.HotkeyAnswer | src/main.rs:198-221 | Any answer is a string that `parse_hotkey` accepts. |
| Setup.PromptHotkey | src/main.rs:198-221 | The retry loop computes `Setup.HotkeyAnswer`: it skips unparseable lines, stops on a read error, and turns blank input into the default. |
| Setup.BlankAnswerIsDefault | src/main.rs:205-210 | A blank line, or the end of input, gives "Ctrl+Alt+S". |
| Setup.InvalidAnswerSkipped | src/main.rs:213-218 | A line that does not parse is ignored and the prompt repeats. |
| Setup.RunSetup | src/main.rs:155-196 | `run_setup` with its early returns computes `Setup.SetupResult`. |
| Setup.SetupGuarantees | src/main.rs:155-186 | Setup panics exactly when listing the devices fails. With fewer than 2 devices it cancels. A completed setup had at least 2 devices and a parseable hotkey. Its ids come from two distinct in-range entries. |
| Setup.SameChoiceCancels | src/main.rs:172-178 | Two answers that choose the same device cancel the setup, however each is written ("2" and " 02", say). |
| Switcher.IsCurrentSpeakers | src/main.rs:119-123 | True exactly when the default device read is the speakers. A failed read counts as speakers. |
| Switcher.Target | src/main.rs:134-138 | The target is one of the two presets, and `switching_to_speakers` holds exactly when the current device is not the speakers. With distinct presets, a current device that is a preset is never its own target. |
| Switcher.ToggleDevice | src/main.rs:125-153 | A failed read stops after the read: no switch and no tray update. If the default is the speakers, the switch goes to the headphones; otherwise it goes to the speakers. The tray is updated exactly when the switch succeeds, and with the direction of the switch. Nothing else happens: one, two or three effects. |
| Switcher.TogglesAlternate | src/main.rs:134-138 | With distinct presets: from speakers the toggle goes to headphones and back. From any third device it goes to speakers. |
| Switcher.TrayAgreesAfterToggle | src/main.rs:134-151 | With distinct presets, the tray state after a switch is what `is_current_speakers` then reports. |
| Switcher.Classify | src/main.rs:63-81 | Each message kind gets its arm, both ways: WM_QUIT exits, hotkey 1 and WM_APP_TOGGLE toggle, hotkey 2 and WM_APP_RECONFIGURE reconfigure, other hotkey ids are ignored, and anything else is dispatched. |
| Switcher.LoopStep | src/main.rs:63-112 | Handling one message in order. Hotkey 1 and WM_APP_TOGGLE toggle once. Unknown hotkey ids do nothing. Other messages are dispatched. WM_QUIT cleans up. Hotkey 2 and WM_APP_RECONFIGURE reconfigure. |
| Switcher.StartStep | src/main.rs:33-57 | Startup never leaves for the cleanup: a crash, a cancelled setup or a failed registration returns from main at once. |
| Switcher.App.Startup | src/main.rs:33-57 | Startup's effects and result are those of `Switcher.StartStep`. |
| Switcher.App.Pump | src/main.rs:61-84 | The inner loop stops at a reconfiguration request or WM_QUIT, with the flag set exactly for a request, or when no message is left. Its effects so far followed by the loop's effects on the remaining messages stay the whole run's effects. |
| Switcher.App.Handle | src/main.rs:64-81 | One message of the inner loop. A toggle or a dispatch adds its effects and the loop goes on, with those effects followed by what is left still the whole run. WM_QUIT and a reconfiguration request leave the loop with no effect, and only the request sets the flag. |
| Switcher.App.Reconfigure | src/main.rs:90-112 | Clears the flag, then its effects and result are those of `Switcher.ReconfigureStep`. |
| Switcher.App.Round | src/main.rs:60-112 | One pass of the outer loop. It ends on WM_QUIT, or on a cancelled setup or a failed re-registration, with the cleanup still to come; at the end of the messages while waiting; or on a crash inside the reconfiguration. Otherwise it carries on after the reconfiguration request it consumed, with the flag clear and the rest of the effects still those of `Switcher.Main`. |
| Switcher.ExitAt | src/main.rs:63-88 | A WM_QUIT in the message sequence ends the loop there. The cleanup follows and no message after it is read. |
| Switcher.ReconfigureAt | src/main.rs:91-112 | A reconfiguration request in the message sequence gives the effects of `Switcher.ReconfigureStep`. After a new registration the loop goes on over the following messages. A cancelled setup or a failed registration goes to the cleanup; a crash ends the run there. |
| Switcher.App.Run | src/main.rs:24-117 | `main` as a program produces exactly `Switcher.Main`'s effects and ending, and ends with the flag clear. |
| Trace.LoopChunk | src/main.rs:60-116 | Every effect in the loop's trace may follow the one before it, as `Trace.MayFollow` defines. |
| Trace.MainOrdered | src/main.rs:24-117 | In all of `main`: a switch only after a successful read. A tray update only after a successful switch or after re-registering both hotkeys. The options hotkey and the tray only after the toggle hotkey was registered. Every device listing after the first only right after unregistering. |
| Trace.LoopEndsRight | src/main.rs:60-116 | When the loop leaves, the last two effects are the tray cleanup and the unregistration, and there is no cleanup before them. A run that does not leave the loop normally never cleans up. A crash happens while listing the devices. |
| Trace.LoopWaits | src/main.rs:60-116 | The loop never returns from `main` early. The loop is still waiting only when no WM_QUIT came. |
| Trace.MainEndings | src/main.rs:24-117 | A return before the message loop ignores every message and never sets up or cleans up the tray. The endings of `Trace.LoopEndsRight` hold for the whole run, and it is still waiting only when no WM_QUIT came. |
| Trace.QuietLoop | src/main.rs:63-82 | Over messages without WM_QUIT or a reconfiguration request, the loop keeps waiting. It reads the default device once per toggle request and dispatches once per other message. |
| Trace.QuitCleansUp | src/main.rs:63-116 | WM_QUIT ends the loop at once with the cleanup, whatever follows. |
| Trace.UnknownHotkeyIgnored | src/main.rs:71 | A hotkey id other than 1 and 2 changes nothing. |
| Trace.ReconfigureWithSetup | src/main.rs:90-112 | A reconfiguration unregisters and then lists devices. Take its setup result to be what `Setup.SetupResult` computes. Then it crashes exactly when listing fails. A completed setup always gets past the hotkey parse, so only RegisterHotKey can end the program there. |

## Left out

- src/audio.rs is not part of this model. It is COM and IPolicyConfig
  calls. `get_default_device_id`, `set_default_device` and `list_devices`
  are replies that come with each message. `set_default_device` stops at
  the first failing role (src/audio.rs:100-102), so a single success flag
  is modelled.
- src/config.rs is not part of this model (file and JSON I/O). The loaded
  configuration is an input, and `config::save` is only recorded as an
  effect.
- Switcher: `run_setup`'s result is a reply that comes with each message,
  not computed from devices and console lines. This keeps the message loop
  apart from the console dialogue it starts. `Setup.SetupResult` models how
  the result arises, and `Trace.ReconfigureWithSetup` connects the two.
- `config::save` and `config_path` are taken never to fail. In the source
  they panic through `expect` when the AppData directory is missing or the
  file cannot be written (src/config.rs:16, 33, 35, 36). So the model's
  `Crashed` ending covers only a failing `list_devices`.
- Win32 plumbing is not modelled: `tray::setup`, `cleanup`, showing and
  hiding the console, `create_message_window`, `wndproc` (its left click
  toggles the console's visibility; it does not switch the device), Shell_NotifyIconW, the AtomicPtr
  statics, AllocConsole/FreeConsole, CoInitializeEx, DispatchMessageW's
  target and all printing. The tray calls are recorded as effects.
- GetMessageW returning -1 on error is not modelled. `as_bool` would treat
  it as a message. Every message in the model is a real one.
- Switcher.Classify: the `wParam as i32` truncation of the hotkey id is not
  modelled. The id is an unbounded integer.
- WM_APP_TOGGLE and WM_APP_RECONFIGURE are treated as two distinct message
  kinds. Their numeric values are not defined in the files modelled.
- `hotkey::register_options` and `hotkey::unregister` are recorded effects.
  Their OS results are ignored, as in the source.
- Hotkey, Setup.DeviceChoice and Setup.HotkeyCandidate: `trim` and
  `to_uppercase` are modelled for ASCII only (`Hotkey.Trim`, `Hotkey.Upper`).
  Unicode white space and case mapping outside ASCII are not modelled.
- Setup: a failed flush and a failed read are one console reply, since the
  source treats them the same way. The end of input reads as an empty line.
- Setup.ParseUsize: `usize` is taken to be 64 bits.
- Tray.LoadIconImage: the source panics on an out-of-bounds read or an
  overflowing slice. The model returns an error value instead.
  CreateIconFromResourceEx and its `expect` are outside the model, which
  ends at the byte slice.
- Tray.FillTip: the source panics on text over 128 units, which its two
  fixed texts never reach. The model returns None.
- Some descriptions of this program mention single-instance locking,
  forwarding to a running instance, command-line sub-commands and a
  partial-failure result when switching roles. None of these is in the
  source files modelled, and the model follows the code.
- The "otherwise largest" comment at src/tray.rs:171 describes behaviour
  that never happens (`Tray.ThirdClauseDead`). An ICO whose entries are
  all 255 or 256 wide, or all narrower than 16, gives the empty slice.
  The model keeps this behaviour.
