/** The hotkey text parser of src/hotkey.rs: "Ctrl+Alt+S" becomes a
    modifier bitmask (always carrying MOD_NOREPEAT) and one virtual-key
    code. Characters are folded and trimmed as ASCII. */
module Hotkey {
  import opened Results

  type VirtualKey = k: int | 0 <= k < 0x1_0000

  // HOT_KEY_MODIFIERS flags of the Win32 API
  const MOD_ALT: bv32 := 0x0001
  const MOD_CONTROL: bv32 := 0x0002
  const MOD_SHIFT: bv32 := 0x0004
  const MOD_WIN: bv32 := 0x0008
  const MOD_NOREPEAT: bv32 := 0x4000

  // Hotkey ids passed to RegisterHotKey
  const HOTKEY_TOGGLE: int := 1
  const HOTKEY_OPTIONS: int := 2

  /** The options hotkey registered by `register_options`: Ctrl+O. */
  const OPTIONS_MODIFIERS: bv32 := MOD_CONTROL | MOD_NOREPEAT
  const VK_O: VirtualKey := 0x4F

  datatype Modifier = Ctrl | Alt | Shift | Win

  function Bit(m: Modifier): bv32
  {
    match m
    case Ctrl => MOD_CONTROL
    case Alt => MOD_ALT
    case Shift => MOD_SHIFT
    case Win => MOD_WIN
  }

  datatype Hotkey = Hotkey(modifiers: bv32, vk: VirtualKey)

  const OPTIONS_HOTKEY := Hotkey(OPTIONS_MODIFIERS, VK_O)

  datatype HotkeyError =
    | MultipleKeys(got: string)   // a second non-modifier token
    | NoKey                       // only modifiers
    | UnknownKey(name: string)    // a token outside the key table

  const MULTIPLE_KEYS_TEXT := "Multiple keys specified: " + "already had one, got '"
  const NO_KEY_TEXT := "No key specified in hotkey string"
  const UNKNOWN_KEY_TEXT := "Unknown key: '"

  /** The text of each error, as the source formats it. */
  function ErrorText(e: HotkeyError): string
  {
    match e
    case MultipleKeys(got) => MULTIPLE_KEYS_TEXT + got + "'"
    case NoKey => NO_KEY_TEXT
    case UnknownKey(name) => UNKNOWN_KEY_TEXT + name + "'"
  }

  /** The source reports errors only as text, and the text loses nothing:
      different errors read differently. */
  lemma ErrorTextInjective(a: HotkeyError, b: HotkeyError)
    requires ErrorText(a) == ErrorText(b)
    ensures a == b
  {
    var t := ErrorText(a);
    assert MULTIPLE_KEYS_TEXT[0] == 'M';
    assert NO_KEY_TEXT[0] == 'N';
    assert UNKNOWN_KEY_TEXT[0] == 'U';
    match a
    case MultipleKeys(g) =>
      assert t[0] == 'M';
      if b.MultipleKeys? {
        assert g == t[|MULTIPLE_KEYS_TEXT|..|t| - 1];
        assert b.got == t[|MULTIPLE_KEYS_TEXT|..|t| - 1];
      }
    case NoKey =>
      assert t[0] == 'N';
    case UnknownKey(n) =>
      assert t[0] == 'U';
      if b.UnknownKey? {
        assert n == t[|UNKNOWN_KEY_TEXT|..|t| - 1];
        assert b.name == t[|UNKNOWN_KEY_TEXT|..|t| - 1];
      }
  }

  // ---------------------------------------------------------------------
  // Text handling: split('+'), trim(), to_uppercase() restricted to ASCII

  /** ASCII white space as `char::is_whitespace` sees it: tab, line feed,
      vertical tab, form feed, carriage return and space. */
  predicate IsWhitespace(c: char)
  {
    c == ' ' || ('\t' <= c <= '\r')
  }

  function TrimStart(s: string): string
  {
    if |s| > 0 && IsWhitespace(s[0]) then TrimStart(s[1..]) else s
  }

  function TrimEnd(s: string): string
  {
    if |s| > 0 && IsWhitespace(s[|s| - 1]) then TrimEnd(s[..|s| - 1]) else s
  }

  function Trim(s: string): string
  {
    TrimEnd(TrimStart(s))
  }

  function UpperChar(c: char): (u: char)
    ensures 'a' <= c <= 'z' ==> u as int == c as int - 32
    ensures !('a' <= c <= 'z') ==> u == c
  {
    if 'a' <= c <= 'z' then (c as int - 32) as char else c
  }

  function Upper(s: string): (u: string)
    ensures |u| == |s|
  {
    seq(|s|, i requires 0 <= i < |s| => UpperChar(s[i]))
  }

  /** `str::split(sep)`: the pieces between separators, in order; an empty
      string gives one empty piece and every separator adds one more. */
  function Split(s: string, sep: char): (parts: seq<string>)
    ensures |parts| >= 1
  {
    if s == [] then [""]
    else if s[0] == sep then [""] + Split(s[1..], sep)
    else
      var rest := Split(s[1..], sep);
      [[s[0]] + rest[0]] + rest[1..]
  }

  function Join(parts: seq<string>, sep: char): string
  {
    if parts == [] then ""
    else if |parts| == 1 then parts[0]
    else parts[0] + [sep] + Join(parts[1..], sep)
  }

  /** Splitting loses nothing: joining the pieces back with the separator
      gives the text, and no piece holds a separator. */
  lemma {:induction false} SplitJoin(s: string, sep: char)
    ensures Join(Split(s, sep), sep) == s
    ensures forall k :: 0 <= k < |Split(s, sep)| ==> sep !in Split(s, sep)[k]
  {
    if s != [] {
      SplitJoin(s[1..], sep);
      var rest := Split(s[1..], sep);
      if s[0] == sep {
        assert Split(s, sep) == [""] + rest;
        assert ([""] + rest)[1..] == rest;
        assert Join(Split(s, sep), sep) == "" + [sep] + Join(rest, sep);
      } else {
        var parts := [[s[0]] + rest[0]] + rest[1..];
        assert Split(s, sep) == parts;
        if |rest| == 1 {
          assert Join(parts, sep) == [s[0]] + rest[0];
        } else {
          assert parts[1..] == rest[1..];
          assert Join(rest, sep) == rest[0] + [sep] + Join(rest[1..], sep);
        }
        assert Join(parts, sep) == [s[0]] + Join(rest, sep);
        assert [s[0]] + s[1..] == s;
        forall k | 0 <= k < |parts| ensures sep !in parts[k] {
          if k == 0 {
            assert sep !in rest[0];
          } else {
            assert parts[k] == rest[k];
          }
        }
      }
    }
  }

  /** Each '+'-separated piece as it is matched: trimmed, then upper-cased. */
  function Normalize(part: string): string
  {
    Upper(Trim(part))
  }

  function Tokens(s: string): seq<string>
  {
    var parts := Split(s, '+');
    seq(|parts|, k requires 0 <= k < |parts| => Normalize(parts[k]))
  }

  // ---------------------------------------------------------------------
  // The key table of key_name_to_vk

  /** The modifier arms of parse_hotkey's `match`. */
  const ModifierNames: map<string, Modifier> := map[
    "CTRL" := Ctrl, "CONTROL" := Ctrl,
    "ALT" := Alt,
    "SHIFT" := Shift,
    "WIN" := Win, "WINDOWS" := Win, "SUPER" := Win
  ]

  function ModifierOf(tok: string): Option<Modifier>
  {
    if tok in ModifierNames then Some(ModifierNames[tok]) else None
  }

  predicate IsAsciiAlpha(c: char) { 'A' <= c <= 'Z' || 'a' <= c <= 'z' }

  predicate IsAsciiDigit(c: char) { '0' <= c <= '9' }

  /** Function keys, space and the OEM punctuation keys with their VK_*
      codes: the `match name` arms of key_name_to_vk, as a table. */
  const NamedKeys: map<string, VirtualKey> := map[
    "F1" := 0x70, "F2" := 0x71, "F3" := 0x72, "F4" := 0x73,   // VK_F1 ..
    "F5" := 0x74, "F6" := 0x75, "F7" := 0x76, "F8" := 0x77,
    "F9" := 0x78, "F10" := 0x79, "F11" := 0x7A, "F12" := 0x7B, // .. VK_F12
    "SPACE" := 0x20,   // VK_SPACE
    "\\" := 0xDC,      // VK_OEM_5
    "/" := 0xBF,       // VK_OEM_2
    ";" := 0xBA,       // VK_OEM_1
    "'" := 0xDE,       // VK_OEM_7
    "[" := 0xDB,       // VK_OEM_4
    "]" := 0xDD,       // VK_OEM_6
    "-" := 0xBD,       // VK_OEM_MINUS
    "=" := 0xBB,       // VK_OEM_PLUS
    "," := 0xBC,       // VK_OEM_COMMA
    "." := 0xBE,       // VK_OEM_PERIOD
    "`" := 0xC0        // VK_OEM_3
  ]

  function NamedKey(name: string): Option<VirtualKey>
  {
    if name in NamedKeys then Some(NamedKeys[name]) else None
  }

  /** `key_name_to_vk`. The source tests `name.len() == 1` on UTF-8 bytes;
      a one-byte name is exactly a one-character ASCII name, and no
      non-ASCII character is an ASCII letter or digit, so testing the
      character count gives the same answers. */
  function KeyNameToVk(name: string): (r: Result<VirtualKey, HotkeyError>)
    ensures r.Ok? ==> r.value != 0
    ensures r.Err? ==> r.error == UnknownKey(name)
    ensures |name| == 1 && IsAsciiAlpha(name[0]) ==>
      r.Ok? && 0x41 <= r.value <= 0x5A && r.value == UpperChar(name[0]) as int
    ensures |name| == 1 && IsAsciiDigit(name[0]) ==>
      r.Ok? && 0x30 <= r.value <= 0x39 && r.value == name[0] as int
  {
    if |name| == 1 && IsAsciiAlpha(name[0]) then Ok(UpperChar(name[0]) as int)
    else if |name| == 1 && IsAsciiDigit(name[0]) then Ok(name[0] as int)
    else match NamedKey(name)
      case Some(vk) => Ok(vk)
      case None => Err(UnknownKey(name))
  }

  /** The reverse table: the canonical (upper-case) name of each code. */
  function KeyName(vk: VirtualKey): Option<string>
  {
    if 0x41 <= vk <= 0x5A || 0x30 <= vk <= 0x39 then Some([vk as char])
    else match vk
      case 0x70 => Some("F1")
      case 0x71 => Some("F2")
      case 0x72 => Some("F3")
      case 0x73 => Some("F4")
      case 0x74 => Some("F5")
      case 0x75 => Some("F6")
      case 0x76 => Some("F7")
      case 0x77 => Some("F8")
      case 0x78 => Some("F9")
      case 0x79 => Some("F10")
      case 0x7A => Some("F11")
      case 0x7B => Some("F12")
      case 0x20 => Some("SPACE")
      case 0xDC => Some("\\")
      case 0xBF => Some("/")
      case 0xBA => Some(";")
      case 0xDE => Some("'")
      case 0xDB => Some("[")
      case 0xDD => Some("]")
      case 0xBD => Some("-")
      case 0xBB => Some("=")
      case 0xBC => Some(",")
      case 0xBE => Some(".")
      case 0xC0 => Some("`")
      case _ => None
  }

  /** The key table is one-to-one up to case: the code of a key name leads
      back to that name upper-cased. */
  lemma KeyNameRoundTrip(name: string)
    requires KeyNameToVk(name).Ok?
    ensures KeyName(KeyNameToVk(name).value) == Some(Upper(name))
  {
    var v := KeyNameToVk(name).value;
    if |name| == 1 && (IsAsciiAlpha(name[0]) || IsAsciiDigit(name[0])) {
      assert Upper(name) == [UpperChar(name[0])];
      assert [v as char] == [UpperChar(name[0])];
    } else {
      assert NamedKey(name) == Some(v);
      NamedKeyRoundTrip(name);
      assert Upper(name) == name;
    }
  }

  /** The named rows of the table are upper-case already, and each code
      leads back to its own name. */
  lemma NamedKeyRoundTrip(name: string)
    requires NamedKey(name).Some?
    ensures KeyName(NamedKey(name).value) == Some(name)
    ensures forall k :: 0 <= k < |name| ==> !('a' <= name[k] <= 'z')
  {
  }

  /** And every code the reverse table names is the one its name selects. */
  lemma KeyNameSound(vk: VirtualKey)
    requires KeyName(vk).Some?
    ensures KeyNameToVk(KeyName(vk).value) == Ok(vk)
  {
    if 0x41 <= vk <= 0x5A || 0x30 <= vk <= 0x39 {
      assert ((vk as char) as int) == vk;
    } else {
      NamedKeySound(vk);
    }
  }

  /** The named rows of the reverse table lead back through the table. */
  lemma NamedKeySound(vk: VirtualKey)
    requires KeyName(vk).Some? && !(0x41 <= vk <= 0x5A || 0x30 <= vk <= 0x39)
    ensures NamedKey(KeyName(vk).value) == Some(vk)
    ensures var n := KeyName(vk).value; !(|n| == 1 && (IsAsciiAlpha(n[0]) || IsAsciiDigit(n[0])))
  {
  }

  lemma KeyNamesInjective(a: string, b: string)
    requires KeyNameToVk(a).Ok? && KeyNameToVk(a) == KeyNameToVk(b)
    ensures Upper(a) == Upper(b)
  {
    KeyNameRoundTrip(a);
    KeyNameRoundTrip(b);
  }

  // ---------------------------------------------------------------------
  // parse_hotkey: the specification and the loop

  /** The non-modifier tokens, in order. */
  function KeyTokens(toks: seq<string>): (keys: seq<string>)
    ensures |keys| <= |toks|
  {
    if toks == [] then []
    else
      var last := toks[|toks| - 1];
      KeyTokens(toks[..|toks| - 1]) + (if ModifierOf(last).None? then [last] else [])
  }

  /** The modifiers the tokens name. */
  function ModsOf(toks: seq<string>): set<Modifier>
  {
    if toks == [] then {}
    else
      var last := toks[|toks| - 1];
      ModsOf(toks[..|toks| - 1]) + (if ModifierOf(last).Some? then {ModifierOf(last).value} else {})
  }

  function Mask(mods: set<Modifier>): bv32
  {
    (if Ctrl in mods then MOD_CONTROL else 0) |
    (if Alt in mods then MOD_ALT else 0) |
    (if Shift in mods then MOD_SHIFT else 0) |
    (if Win in mods then MOD_WIN else 0)
  }

  /** What parse_hotkey returns for a token sequence, stated outright:
      no key token is NoKey; a first key token outside the table is
      UnknownKey; a second key token is MultipleKeys; otherwise the key and
      MOD_NOREPEAT together with every modifier named anywhere. */
  function ParseTokens(toks: seq<string>): Result<Hotkey, HotkeyError>
  {
    var keys := KeyTokens(toks);
    if keys == [] then Err(NoKey)
    else match KeyNameToVk(keys[0])
      case Err(e) => Err(e)
      case Ok(vk) =>
        if |keys| >= 2 then Err(MultipleKeys(keys[1]))
        else Ok(Hotkey(MOD_NOREPEAT | Mask(ModsOf(toks)), vk))
  }

  function Parse(s: string): Result<Hotkey, HotkeyError>
  {
    ParseTokens(Tokens(s))
  }

  lemma MaskAdd(mods: set<Modifier>, m: Modifier)
    ensures Mask(mods + {m}) == Mask(mods) | Bit(m)
  {
  }

  lemma {:induction false} KeyTokensAppend(a: seq<string>, b: seq<string>)
    ensures KeyTokens(a + b) == KeyTokens(a) + KeyTokens(b)
    decreases |b|
  {
    if b == [] {
      assert a + b == a;
    } else {
      var ab := a + b;
      assert ab[..|ab| - 1] == a + b[..|b| - 1];
      assert ab[|ab| - 1] == b[|b| - 1];
      KeyTokensAppend(a, b[..|b| - 1]);
    }
  }

  /** One more token extends the key tokens and the modifiers by what that
      token is. */
  lemma StepPrefix(toks: seq<string>, i: nat)
    requires i < |toks|
    ensures KeyTokens(toks[..i + 1]) ==
      KeyTokens(toks[..i]) + (if ModifierOf(toks[i]).None? then [toks[i]] else [])
    ensures ModsOf(toks[..i + 1]) ==
      ModsOf(toks[..i]) + (if ModifierOf(toks[i]).Some? then {ModifierOf(toks[i]).value} else {})
  {
    assert toks[..i + 1][..i] == toks[..i];
  }

  /** A modifier token ORs its bit into the mask built so far. */
  lemma MaskStep(toks: seq<string>, i: nat, m: Modifier)
    requires i < |toks| && ModifierOf(toks[i]) == Some(m)
    ensures MOD_NOREPEAT | Mask(ModsOf(toks[..i + 1])) ==
      (MOD_NOREPEAT | Mask(ModsOf(toks[..i]))) | Bit(m)
  {
    StepPrefix(toks, i);
    MaskAdd(ModsOf(toks[..i]), m);
  }

  /** A key token leaves the modifiers as they were. */
  lemma ModsKeep(toks: seq<string>, i: nat)
    requires i < |toks| && ModifierOf(toks[i]).None?
    ensures ModsOf(toks[..i + 1]) == ModsOf(toks[..i])
  {
    StepPrefix(toks, i);
  }

  /** The key tokens of a prefix begin the key tokens of the whole. */
  lemma {:induction false} PrefixKeys(toks: seq<string>, i: nat)
    requires i <= |toks|
    ensures KeyTokens(toks) == KeyTokens(toks[..i]) + KeyTokens(toks[i..])
  {
    KeyTokensAppend(toks[..i], toks[i..]);
    assert toks[..i] + toks[i..] == toks;
  }

  /** A second key token decides the parse: MultipleKeys. */
  lemma SecondKeyStops(toks: seq<string>, i: nat)
    requires i < |toks| && ModifierOf(toks[i]).None?
    requires |KeyTokens(toks[..i])| == 1 && KeyNameToVk(KeyTokens(toks[..i])[0]).Ok?
    ensures ParseTokens(toks) == Err(MultipleKeys(toks[i]))
  {
    StepPrefix(toks, i);
    PrefixKeys(toks, i + 1);
  }

  /** A first key token outside the table decides the parse: its error. */
  lemma FirstKeyUnknownStops(toks: seq<string>, i: nat)
    requires i < |toks| && ModifierOf(toks[i]).None?
    requires KeyTokens(toks[..i]) == [] && KeyNameToVk(toks[i]).Err?
    ensures ParseTokens(toks) == Err(KeyNameToVk(toks[i]).error)
  {
    StepPrefix(toks, i);
    PrefixKeys(toks, i + 1);
  }

  /** What parse_hotkey's loop holds after the first i tokens: the mask of
      the modifiers seen so far and the code of the one key seen, if any. */
  predicate Scanned(toks: seq<string>, i: nat, modifiers: bv32, vk: VirtualKey)
    requires i <= |toks|
  {
    modifiers == MOD_NOREPEAT | Mask(ModsOf(toks[..i])) &&
    |KeyTokens(toks[..i])| <= 1 &&
    (vk == 0 <==> KeyTokens(toks[..i]) == []) &&
    (KeyTokens(toks[..i]) != [] ==> KeyNameToVk(KeyTokens(toks[..i])[0]) == Ok(vk))
  }

  /** Once every token is scanned without an error, the parse is NoKey or
      the mask and the key collected. */
  lemma ScannedAll(toks: seq<string>, modifiers: bv32, vk: VirtualKey)
    requires Scanned(toks, |toks|, modifiers, vk)
    ensures ParseTokens(toks) == if vk == 0 then Err(NoKey) else Ok(Hotkey(modifiers, vk))
  {
    assert toks[..|toks|] == toks;
  }

  /** One pass of parse_hotkey's loop (hotkey.rs:18-33): a modifier ORs
      its bit in, the first key is looked up, and a lookup failure or a
      second key ends the parse with the error ParseTokens gives. */
  method Feed(ghost toks: seq<string>, i: nat, key: string, modifiers: bv32, vk: VirtualKey)
    returns (modifiers': bv32, vk': VirtualKey, stop: Option<HotkeyError>)
    requires i < |toks| && key == toks[i]
    requires Scanned(toks, i, modifiers, vk)
    ensures stop.None? ==> Scanned(toks, i + 1, modifiers', vk')
    ensures stop.Some? ==> ParseTokens(toks) == Err(stop.value)
  {
    StepPrefix(toks, i);
    match ModifierOf(key)
    case Some(m) =>
      MaskStep(toks, i, m);
      return modifiers | Bit(m), vk, None;
    case None =>
      ModsKeep(toks, i);
      if vk != 0 {
        SecondKeyStops(toks, i);
        return modifiers, vk, Some(MultipleKeys(key));
      }
      var found := KeyNameToVk(key);
      if found.Err? {
        FirstKeyUnknownStops(toks, i);
        return modifiers, vk, Some(found.error);
      }
      return modifiers, found.value, None;
  }

  /** parse_hotkey (hotkey.rs:12-39): a loop over the '+'-separated pieces
      that ORs modifiers into the mask, takes the first key with
      key_name_to_vk and stops at the first error. */
  method ParseHotkey(s: string) returns (r: Result<Hotkey, HotkeyError>)
    ensures r == Parse(s)
  {
    var parts := Split(s, '+');
    ghost var toks := Tokens(s);
    assert |toks| == |parts|;
    var modifiers := MOD_NOREPEAT;
    var vk: VirtualKey := 0;
    for i := 0 to |parts|
      invariant Scanned(toks, i, modifiers, vk)
    {
      var key := Normalize(parts[i]);
      assert key == toks[i];
      var stop;
      modifiers, vk, stop := Feed(toks, i, key, modifiers, vk);
      if stop.Some? {
        return Err(stop.value);
      }
    }
    ScannedAll(toks, modifiers, vk);
    if vk == 0 {
      return Err(NoKey);
    }
    return Ok(Hotkey(modifiers, vk));
  }

  // ---------------------------------------------------------------------
  // Properties of the parser

  lemma {:induction false} ModsOfMembers(toks: seq<string>, m: Modifier)
    ensures m in ModsOf(toks) <==> exists k :: 0 <= k < |toks| && ModifierOf(toks[k]) == Some(m)
  {
    if toks != [] {
      var init := toks[..|toks| - 1];
      ModsOfMembers(init, m);
      if m in ModsOf(init) {
        var k :| 0 <= k < |init| && ModifierOf(init[k]) == Some(m);
        assert toks[k] == init[k];
      }
      if exists k :: 0 <= k < |toks| && ModifierOf(toks[k]) == Some(m) {
        var k :| 0 <= k < |toks| && ModifierOf(toks[k]) == Some(m);
        if k < |init| {
          assert init[k] == toks[k];
        }
      }
    }
  }

  /** On success the mask is MOD_NOREPEAT OR-ed with exactly the modifiers
      some token names, and no other bit is set; the key code is not 0. */
  lemma ParseOkMask(s: string, m: Modifier)
    requires Parse(s).Ok?
    ensures Parse(s).value.modifiers & MOD_NOREPEAT == MOD_NOREPEAT
    ensures Parse(s).value.modifiers & !(MOD_NOREPEAT | MOD_CONTROL | MOD_ALT | MOD_SHIFT | MOD_WIN) == 0
    ensures Parse(s).value.modifiers & Bit(m) != 0 <==>
      exists k :: 0 <= k < |Tokens(s)| && ModifierOf(Tokens(s)[k]) == Some(m)
    ensures Parse(s).value.vk != 0
  {
    ModsOfMembers(Tokens(s), m);
  }

  /** Parsing succeeds exactly when there is one key token and it is in
      the table. */
  lemma ParseOkIff(s: string)
    ensures Parse(s).Ok? <==>
      |KeyTokens(Tokens(s))| == 1 && KeyNameToVk(KeyTokens(Tokens(s))[0]).Ok?
    ensures Parse(s).Ok? ==> Parse(s).value.vk == KeyNameToVk(KeyTokens(Tokens(s))[0]).value
  {
  }

  lemma {:induction false} KeyTokensMember(toks: seq<string>, k: nat)
    requires k < |toks| && ModifierOf(toks[k]).None?
    ensures toks[k] in KeyTokens(toks)
  {
    KeyTokensAppend(toks[..k], toks[k..]);
    assert toks[..k] + toks[k..] == toks;
    KeyTokensAppend([toks[k]], toks[k + 1..]);
    assert [toks[k]] + toks[k + 1..] == toks[k..];
    assert KeyTokens([toks[k]]) == [toks[k]] by {
      assert [toks[k]][..0] == [];
    }
  }

  /** The empty name is neither a modifier nor a key. */
  lemma EmptyNameUnknown()
    ensures ModifierOf("") == None && KeyNameToVk("") == Err(UnknownKey(""))
  {
  }

  /** An empty piece, as in "Ctrl++S" or "Ctrl+", makes parsing fail. */
  lemma EmptyPieceRejected(s: string, k: nat)
    requires k < |Tokens(s)| && Tokens(s)[k] == ""
    ensures Parse(s).Err?
  {
    EmptyNameUnknown();
    KeyTokensMember(Tokens(s), k);
    ParseOkIff(s);
    var keys := KeyTokens(Tokens(s));
    if |keys| == 1 {
      assert keys[0] == "";
    }
  }

  lemma {:induction false} ModsOfIsSetOfElements(toks: seq<string>)
    ensures ModsOf(toks) == set t | t in toks && ModifierOf(t).Some? :: ModifierOf(t).value
  {
    if toks != [] {
      var init := toks[..|toks| - 1];
      ModsOfIsSetOfElements(init);
      assert toks == init + [toks[|toks| - 1]];
    }
  }

  /** Order and repetition of modifiers do not matter: token sequences with
      the same elements and the same key tokens parse alike, because the
      mask depends only on which modifiers occur. */
  lemma ModifierOrderIrrelevant(t1: seq<string>, t2: seq<string>)
    requires forall t :: t in t1 <==> t in t2
    requires KeyTokens(t1) == KeyTokens(t2)
    ensures ParseTokens(t1) == ParseTokens(t2)
  {
    ModsOfIsSetOfElements(t1);
    ModsOfIsSetOfElements(t2);
  }

  // Case insensitivity of the whole parser

  lemma UpperAppend(a: string, b: string)
    ensures Upper(a + b) == Upper(a) + Upper(b)
  {
  }

  /** Every piece upper-cased. */
  function UpperAll(parts: seq<string>): (r: seq<string>)
    ensures |r| == |parts|
  {
    if parts == [] then [] else [Upper(parts[0])] + UpperAll(parts[1..])
  }

  lemma {:induction false} UpperAllAt(parts: seq<string>, k: nat)
    requires k < |parts|
    ensures UpperAll(parts)[k] == Upper(parts[k])
  {
    if k > 0 {
      UpperAllAt(parts[1..], k - 1);
    }
  }

  /** Splitting commutes with upper-casing, since '+' has no case. */
  lemma {:induction false} SplitUpper(s: string)
    ensures Split(Upper(s), '+') == UpperAll(Split(s, '+'))
  {
    if s != [] {
      var u := Upper(s);
      assert u[1..] == Upper(s[1..]);
      SplitUpper(s[1..]);
      var rest := Split(s[1..], '+');
      var urest := Split(u[1..], '+');
      if s[0] == '+' {
        assert Split(s, '+') == [""] + rest;
        assert ([""] + rest)[1..] == rest;
        assert Upper("") == "";
      } else {
        assert u[0] != '+';
        var parts := [[s[0]] + rest[0]] + rest[1..];
        assert Split(s, '+') == parts;
        assert parts[1..] == rest[1..];
        assert UpperAll(rest) == [Upper(rest[0])] + UpperAll(rest[1..]);
        UpperAppend([s[0]], rest[0]);
        assert Upper([s[0]]) == [u[0]];
      }
    }
  }

  lemma {:induction false} TrimStartUpper(s: string)
    ensures TrimStart(Upper(s)) == Upper(TrimStart(s))
  {
    if |s| > 0 {
      assert Upper(s)[1..] == Upper(s[1..]);
      if IsWhitespace(s[0]) {
        TrimStartUpper(s[1..]);
      }
    }
  }

  lemma {:induction false} TrimEndUpper(s: string)
    ensures TrimEnd(Upper(s)) == Upper(TrimEnd(s))
  {
    if |s| > 0 {
      assert Upper(s)[..|s| - 1] == Upper(s[..|s| - 1]);
      if IsWhitespace(s[|s| - 1]) {
        TrimEndUpper(s[..|s| - 1]);
      }
    }
  }

  /** Text made only of white space. */
  predicate Blank(w: string)
  {
    forall k :: 0 <= k < |w| ==> IsWhitespace(w[k])
  }

  /** Leading white space goes whatever follows it. */
  lemma {:induction false} TrimStartBlank(w: string, x: string)
    requires Blank(w)
    ensures TrimStart(w + x) == TrimStart(x)
  {
    if w != [] {
      assert (w + x)[0] == w[0];
      assert (w + x)[1..] == w[1..] + x;
      TrimStartBlank(w[1..], x);
    } else {
      assert w + x == x;
    }
  }

  /** White space after a piece is still there once the front is trimmed,
      unless the piece itself is blank. */
  lemma {:induction false} TrimStartAppend(p: string, w: string)
    requires Blank(w)
    ensures TrimStart(p + w) == if Blank(p) then [] else TrimStart(p) + w
  {
    if p == [] {
      TrimStartBlank(w, []);
      assert p + w == w + [];
    } else {
      assert (p + w)[0] == p[0];
      assert (p + w)[1..] == p[1..] + w;
      if IsWhitespace(p[0]) {
        TrimStartAppend(p[1..], w);
        if Blank(p[1..]) {
          assert forall k :: 0 < k < |p| ==> p[k] == p[1..][k - 1];
        }
        if Blank(p) {
          assert forall k :: 0 <= k < |p[1..]| ==> p[1..][k] == p[k + 1];
        }
      } else {
        assert !Blank(p);
      }
    }
  }

  /** Trailing white space goes whatever comes before it. */
  lemma {:induction false} TrimEndBlank(x: string, w: string)
    requires Blank(w)
    ensures TrimEnd(x + w) == TrimEnd(x)
    decreases |w|
  {
    if w != [] {
      var xw := x + w;
      assert xw[|xw| - 1] == w[|w| - 1];
      assert xw[..|xw| - 1] == x + w[..|w| - 1];
      TrimEndBlank(x, w[..|w| - 1]);
    } else {
      assert x + w == x;
    }
  }

  /** `trim` ignores white space padding on either side. */
  lemma TrimPadded(a: string, p: string, b: string)
    requires Blank(a) && Blank(b)
    ensures Trim(a + p + b) == Trim(p)
  {
    assert a + p + b == a + (p + b);
    TrimStartBlank(a, p + b);
    TrimStartAppend(p, b);
    if Blank(p) {
      TrimStartAppend(p, []);
      assert p + [] == p;
    } else {
      TrimEndBlank(TrimStart(p), b);
    }
  }

  /** Padding the '+'-separated pieces with white space never changes the
      parse. */
  lemma PaddingIgnored(s: string, t: string, left: seq<string>, right: seq<string>)
    requires |Split(t, '+')| == |Split(s, '+')| == |left| == |right|
    requires forall k :: 0 <= k < |left| ==>
      Blank(left[k]) && Blank(right[k]) && Split(t, '+')[k] == left[k] + Split(s, '+')[k] + right[k]
    ensures Parse(t) == Parse(s)
  {
    forall k | 0 <= k < |left|
      ensures Tokens(t)[k] == Tokens(s)[k]
    {
      TrimPadded(left[k], Split(s, '+')[k], right[k]);
    }
    assert Tokens(t) == Tokens(s);
  }

  /** Upper-casing the whole text first never changes the parse. */
  lemma ParseIgnoresCase(s: string)
    ensures Parse(Upper(s)) == Parse(s)
  {
    SplitUpper(s);
    forall k | 0 <= k < |Split(s, '+')|
      ensures Normalize(Split(Upper(s), '+')[k]) == Normalize(Split(s, '+')[k])
    {
      var p := Split(s, '+')[k];
      UpperAllAt(Split(s, '+'), k);
      TrimStartUpper(p);
      TrimEndUpper(TrimStart(p));
      assert Upper(Upper(Trim(p))) == Upper(Trim(p));
    }
    assert Tokens(Upper(s)) == Tokens(s);
  }

  lemma {:induction false} SplitNoSep(a: string, sep: char)
    requires sep !in a
    ensures Split(a, sep) == [a]
  {
    if a != [] {
      assert forall c :: c in a[1..] ==> c in a;
      SplitNoSep(a[1..], sep);
      assert [a[0]] + a[1..] == a;
    }
  }

  /** A separator ends the first piece. */
  lemma {:induction false} SplitAtSep(a: string, sep: char, b: string)
    requires sep !in a
    ensures Split(a + [sep] + b, sep) == [a] + Split(b, sep)
  {
    var s := a + [sep] + b;
    if a == [] {
      assert s[0] == sep && s[1..] == b;
    } else {
      assert s[0] == a[0] && s[1..] == a[1..] + [sep] + b;
      assert forall c :: c in a[1..] ==> c in a;
      SplitAtSep(a[1..], sep, b);
      assert [a[0]] + a[1..] == a;
    }
  }

  /** The default binding offered by the setup prompt. */
  const DEFAULT_HOTKEY: string := "Ctrl+Alt+S"

  /** Text that neither starts nor ends with white space is its own trim. */
  lemma TrimUnpadded(s: string)
    requires s != [] && !IsWhitespace(s[0]) && !IsWhitespace(s[|s| - 1])
    ensures Trim(s) == s
  {
  }

  lemma SplitDefault()
    ensures Split(DEFAULT_HOTKEY, '+') == ["Ctrl", "Alt", "S"]
  {
    assert DEFAULT_HOTKEY == "Ctrl" + ['+'] + ("Alt" + ['+'] + "S");
    SplitNoSep("S", '+');
    SplitAtSep("Alt", '+', "S");
    SplitAtSep("Ctrl", '+', "Alt" + ['+'] + "S");
  }

  /** The pieces of the default binding, normalized. */
  lemma DefaultPiecesNormalized()
    ensures Normalize("Ctrl") == "CTRL" && Normalize("Alt") == "ALT" && Normalize("S") == "S"
  {
    TrimUnpadded("Ctrl");
    assert Upper("Ctrl") == "CTRL";
    TrimUnpadded("Alt");
    assert Upper("Alt") == "ALT";
    TrimUnpadded("S");
    assert Upper("S") == "S";
  }

  /** Three pieces make three tokens, each one normalized. */
  lemma ThreeTokens(s: string, a: string, b: string, c: string)
    requires Split(s, '+') == [a, b, c]
    ensures Tokens(s) == [Normalize(a), Normalize(b), Normalize(c)]
  {
  }

  lemma DefaultHotkeyTokens()
    ensures Tokens(DEFAULT_HOTKEY) == ["CTRL", "ALT", "S"]
  {
    SplitDefault();
    ThreeTokens(DEFAULT_HOTKEY, "Ctrl", "Alt", "S");
    DefaultPiecesNormalized();
  }

  lemma CtrlAltSParses()
    ensures ParseTokens(["CTRL", "ALT", "S"]) == Ok(Hotkey(MOD_NOREPEAT | MOD_CONTROL | MOD_ALT, 0x53))
  {
    var toks: seq<string> := ["CTRL", "ALT", "S"];
    assert ModifierOf("CTRL") == Some(Ctrl);
    assert ModifierOf("ALT") == Some(Alt);
    assert ModifierOf("S") == None;
    assert toks[..0] == [];
    StepPrefix(toks, 0);
    StepPrefix(toks, 1);
    StepPrefix(toks, 2);
    assert toks[..3] == toks;
    MaskAdd({Ctrl}, Alt);
  }

  /** The pieces of "ctrl + alt + s", normalized. */
  lemma PaddedPiecesNormalized()
    ensures Normalize("ctrl ") == "CTRL" && Normalize(" alt ") == "ALT" && Normalize(" s") == "S"
  {
    assert Blank("") && Blank(" ");
    TrimPadded("", "ctrl", " ");
    assert "" + "ctrl" + " " == "ctrl ";
    TrimUnpadded("ctrl");
    assert Upper("ctrl") == "CTRL";
    TrimPadded(" ", "alt", " ");
    assert " " + "alt" + " " == " alt ";
    TrimUnpadded("alt");
    assert Upper("alt") == "ALT";
    TrimPadded(" ", "s", "");
    assert " " + "s" + "" == " s";
    TrimUnpadded("s");
    assert Upper("s") == "S";
  }

  lemma SplitPadded()
    ensures Split("ctrl + alt + s", '+') == ["ctrl ", " alt ", " s"]
  {
    assert "ctrl + alt + s" == "ctrl " + ['+'] + (" alt " + ['+'] + " s");
    SplitNoSep(" s", '+');
    SplitAtSep(" alt ", '+', " s");
    SplitAtSep("ctrl ", '+', " alt " + ['+'] + " s");
  }

  /** Case and the spaces around the pieces do not matter:
      "ctrl + alt + s" is the default binding. */
  lemma PaddedLowerCaseParses()
    ensures Parse("ctrl + alt + s") == Parse(DEFAULT_HOTKEY)
  {
    SplitPadded();
    ThreeTokens("ctrl + alt + s", "ctrl ", " alt ", " s");
    PaddedPiecesNormalized();
    DefaultHotkeyTokens();
  }

  /** Two pieces make two tokens, each one normalized. */
  lemma TwoTokens(s: string, a: string, b: string)
    requires Split(s, '+') == [a, b]
    ensures Tokens(s) == [Normalize(a), Normalize(b)]
  {
  }

  lemma SplitCtrlO()
    ensures Split("Ctrl+O", '+') == ["Ctrl", "O"]
  {
    assert "Ctrl+O" == "Ctrl" + ['+'] + "O";
    SplitNoSep("O", '+');
    SplitAtSep("Ctrl", '+', "O");
  }

  lemma CtrlOParses()
    ensures ParseTokens(["CTRL", "O"]) == Ok(OPTIONS_HOTKEY)
  {
    var toks: seq<string> := ["CTRL", "O"];
    assert ModifierOf("CTRL") == Some(Ctrl);
    assert ModifierOf("O") == None;
    assert toks[..0] == [];
    StepPrefix(toks, 0);
    StepPrefix(toks, 1);
    assert toks[..2] == toks;
    MaskAdd({}, Ctrl);
  }

  /** The options hotkey `register_options` registers is the one the text
      "Ctrl+O" describes. */
  lemma OptionsHotkeyIsCtrlO()
    ensures Parse("Ctrl+O") == Ok(OPTIONS_HOTKEY)
  {
    SplitCtrlO();
    TwoTokens("Ctrl+O", "Ctrl", "O");
    DefaultPiecesNormalized();
    CtrlOParses();
  }

  /** The default binding is accepted: Ctrl and Alt with MOD_NOREPEAT, and
      the key S (0x53). */
  lemma DefaultHotkeyParses()
    ensures Parse(DEFAULT_HOTKEY) == Ok(Hotkey(MOD_NOREPEAT | MOD_CONTROL | MOD_ALT, 0x53))
  {
    DefaultHotkeyTokens();
    CtrlAltSParses();
  }

  // ---------------------------------------------------------------------
  // register: parse first, then the OS call

  datatype Registration =
    | Rejected(error: HotkeyError)      // parse failed, RegisterHotKey not called
    | Called(key: Hotkey, ok: bool)     // RegisterHotKey(HOTKEY_TOGGLE, ..) and its result

  /** `register(hotkey_str)` with `osOk` standing for the result of
      RegisterHotKey. */
  function Register(hotkeyText: string, osOk: bool): (r: Registration)
    ensures r.Rejected? <==> Parse(hotkeyText).Err?
    ensures r.Rejected? ==> r.error == Parse(hotkeyText).error
    ensures r.Called? ==> r.key == Parse(hotkeyText).value && r.ok == osOk
  {
    match Parse(hotkeyText)
    case Err(e) => Rejected(e)
    case Ok(k) => Called(k, osOk)
  }

  predicate Registered(r: Registration) { r.Called? && r.ok }
}
