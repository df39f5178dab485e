/** Typing text through the keyboard gadget: the tables, the taps, the token loop, and what a host
    reading the reports by the USB HID Usage Tables (Keyboard/Keypad Page, 0x07) makes of them. */
module HidType {
  import opened Arithmetic
  import opened Wrappers
  import opened HidInput

  const KEY_HOLD := 75_000
  const INTER_KEY := 150_000
  const TAP_PAUSES := 225_000
  const SHIFT := 0x02
  const CTRL_ALT := 0x05

  // ---------------------------------------------------------------- the host's side

  /** The character a usage stands for on a US keyboard, without and with Shift. */
  function UsageChar(key: int, shift: bool): Option<char> {
    if 0x04 <= key <= 0x1D then Some((key - 0x04 + if shift then 65 else 97) as char)
    else if 0x1E <= key <= 0x27 then Some(if shift then "!@#$%^&*()"[key - 0x1E] else "1234567890"[key - 0x1E])
    else if 0x2C <= key <= 0x31 then Some(if shift then " _+{}|"[key - 0x2C] else " -=[]\\"[key - 0x2C])
    else if 0x33 <= key <= 0x38 then Some(if shift then ":\"~<>?"[key - 0x33] else ";'`,./"[key - 0x33])
    else None
  }

  const EDITING := ["enter", "esc", "bksp", "tab", "space"]
  const FUNCTIONS := ["f1", "f2", "f3", "f4", "f5", "f6", "f7", "f8", "f9", "f10", "f11", "f12"]
  const NAVIGATION := ["pause", "ins", "home", "pgup", "del", "end", "pgdn", "right", "left", "down", "up"]

  /** The name of a key that a usage stands for. */
  function UsageName(key: int): Option<string> {
    if 0x28 <= key <= 0x2C then Some(EDITING[key - 0x28])
    else if key == 0x39 then Some("capslock")
    else if 0x3A <= key <= 0x45 then Some(FUNCTIONS[key - 0x3A])
    else if 0x48 <= key <= 0x52 then Some(NAVIGATION[key - 0x48])
    else None
  }

  /** The left-hand modifiers held down, from the lowest bit of the modifier byte. */
  function Held(modifier: int): string {
    (if modifier % 2 == 1 then "ctrl-" else "") + (if modifier / 2 % 2 == 1 then "shift-" else "")
    + (if modifier / 4 % 2 == 1 then "alt-" else "")
  }

  /** The report presses the keys that the text names: modifiers, and a key by name or character. */
  predicate Spells(r: Report, s: string) {
    var held := Held(r.modifier);
    0 <= r.modifier < 8 && held <= s && Names(s[|held|..], r.key)
  }

  predicate Names(name: string, key: int) {
    UsageName(key) == Some(name) || (|name| == 1 && UsageChar(key, false) == Some(name[0]))
  }

  function Glyph(r: Report): string {
    if r.modifier == 0 || r.modifier == 0x02 then  // nothing held, or the left Shift alone
      match UsageChar(r.key, r.modifier == 0x02)
      case Some(c) => [c]
      case None => ""
    else ""
  }

  /** The text a host makes of a trace: a key counts when it was not down in the report before. */
  function HostText(reports: seq<Report>): string {
    if reports == [] then "" else
      var init, last := reports[..|reports| - 1], reports[|reports| - 1];
      HostText(init) + (if last.key != 0 && (init == [] || init[|init| - 1].key != last.key) then Glyph(last) else "")
  }

  function Glyphs(presses: seq<Report>): string {
    if presses == [] then "" else Glyphs(presses[..|presses| - 1]) + Glyph(presses[|presses| - 1])
  }

  // ---------------------------------------------------------------- the tables

  const LETTERS := "abcdefghijklmnopqrstuvwxyz"
  const CAPITALS := "ABCDEFGHIJKLMNOPQRSTUVWXYZ"
  const DIGITS := "1234567890"
  const DIGIT_SYMBOLS := "!@#$%^&*()"

  /** The usage whose key types a character without Shift. */
  function PlainKey(c: char): Option<int> {
    if 'a' <= c <= 'z' then Some(0x04 + c as int - 'a' as int)
    else if '1' <= c <= '9' then Some(0x1E + c as int - '1' as int)
    else
      match c
      case '0' => Some(0x27)
      case ' ' => Some(0x2C) case '-' => Some(0x2D) case '=' => Some(0x2E)
      case '[' => Some(0x2F) case ']' => Some(0x30) case '\\' => Some(0x31)
      case ';' => Some(0x33) case '\'' => Some(0x34) case '`' => Some(0x35)
      case ',' => Some(0x36) case '.' => Some(0x37) case '/' => Some(0x38)
      case _ => None
  }

  /** The plain character whose key types a character with Shift. */
  function BaseOf(c: char): Option<char> {
    if 'A' <= c <= 'Z' then Some((c as int - 'A' as int + 'a' as int) as char)
    else
      match c
      case '!' => Some('1') case '@' => Some('2') case '#' => Some('3') case '$' => Some('4') case '%' => Some('5')
      case '^' => Some('6') case '&' => Some('7') case '*' => Some('8') case '(' => Some('9') case ')' => Some('0')
      case '_' => Some('-') case '+' => Some('=') case '{' => Some('[') case '}' => Some(']') case '|' => Some('\\')
      case ':' => Some(';') case '"' => Some('\'') case '~' => Some('`') case '<' => Some(',') case '>' => Some('.')
      case '?' => Some('/')
      case _ => None
  }

  function ShiftedKey(c: char): Option<int> {
    match BaseOf(c)
    case Some(base) => PlainKey(base)
    case None => None
  }

  /** The table holds exactly what `key` says. */
  ghost predicate Tabulates(table: map<char, int>, key: char -> Option<int>) {
    forall c: char :: (c in table <==> key(c).Some?) && (c in table ==> key(c) == Some(table[c]))
  }

  lemma Letter(i: nat)
    requires i < 26
    ensures LETTERS[i] as int == 'a' as int + i && CAPITALS[i] as int == 'A' as int + i
  {
  }

  lemma Digit(i: nat)
    requires i < 10
    ensures DIGITS[i] == if i == 9 then '0' else ('1' as int + i) as char
  {
  }

  const PUNCTUATION: map<char, int> := map[
    ' ' := 0x2C, '-' := 0x2D, '=' := 0x2E, '[' := 0x2F, ']' := 0x30, '\\' := 0x31,
    ';' := 0x33, '\'' := 0x34, '`' := 0x35, ',' := 0x36, '.' := 0x37, '/' := 0x38]

  const SYMBOL_PAIRS: seq<(char, char)> := [
    ('-', '_'), ('=', '+'), ('[', '{'), (']', '}'), ('\\', '|'), (';', ':'), ('\'', '"'), ('`', '~'),
    (',', '<'), ('.', '>'), ('/', '?')]

  method BuildPlain() returns (plain: map<char, int>)
    ensures Tabulates(plain, PlainKey)
  {
    plain := map[];
    for i := 0 to |LETTERS|
      invariant forall c: char :: c in plain <==> 'a' as int <= c as int < 'a' as int + i
      invariant forall c: char | c in plain :: plain[c] == 0x04 + c as int - 'a' as int
    {
      Letter(i);
      plain := plain[LETTERS[i] := 0x04 + i];
    }
    for i := 0 to |DIGITS|
      invariant forall c: char :: c in plain <==> 'a' <= c <= 'z' || (i == 10 && c == '0')
                                                  || '1' as int <= c as int < '1' as int + Min(i, 9)
      invariant forall c: char | c in plain :: PlainKey(c) == Some(plain[c])
    {
      Digit(i);
      plain := plain[DIGITS[i] := 0x1E + i];
    }
    forall c: char ensures c in PUNCTUATION <==> PlainKey(c).Some? && !('a' <= c <= 'z') && !('0' <= c <= '9')
                   ensures c in PUNCTUATION ==> PlainKey(c) == Some(PUNCTUATION[c])
    {
      Punctuated(c);
    }
    plain := plain + PUNCTUATION;
  }

  lemma Punctuated(c: char)
    ensures c in PUNCTUATION <==> PlainKey(c).Some? && !('a' <= c <= 'z') && !('0' <= c <= '9')
    ensures c in PUNCTUATION ==> PlainKey(c) == Some(PUNCTUATION[c])
  {
  }

  method BuildShifted(plain: map<char, int>) returns (shifted: map<char, int>)
    requires Tabulates(plain, PlainKey)
    ensures Tabulates(shifted, ShiftedKey)
  {
    var pairs := seq(|DIGITS|, i requires 0 <= i < |DIGITS| => (DIGITS[i], DIGIT_SYMBOLS[i]));
    shifted := ShiftLetters(plain);
    hide PlainKey;
    shifted := AddPairs(plain, shifted, pairs);
    shifted := AddPairs(plain, shifted, SYMBOL_PAIRS);
    forall c: char | BaseOf(c).Some? ensures c in shifted {
      AllSymbols(c, pairs);
    }
  }

  /** The capitals take over the usages of their letters. */
  method ShiftLetters(plain: map<char, int>) returns (shifted: map<char, int>)
    requires Tabulates(plain, PlainKey)
    ensures forall c: char :: c in shifted <==> 'A' <= c <= 'Z'
    ensures forall c: char | c in shifted :: ShiftedKey(c) == Some(shifted[c])
  {
    shifted := map[];
    for i := 0 to |LETTERS|
      invariant forall c: char :: c in shifted <==> 'A' as int <= c as int < 'A' as int + i
      invariant forall c: char | c in shifted :: ShiftedKey(c) == Some(shifted[c])
    {
      Letter(i);
      assert BaseOf(CAPITALS[i]) == Some(LETTERS[i]);
      shifted := shifted[CAPITALS[i] := plain[LETTERS[i]]];
    }
  }

  /** Each symbol takes over the usage of its base character. */
  method AddPairs(plain: map<char, int>, table: map<char, int>, pairs: seq<(char, char)>) returns (more: map<char, int>)
    requires Tabulates(plain, PlainKey)
    requires forall j | 0 <= j < |pairs| :: BaseOf(pairs[j].1) == Some(pairs[j].0) && PlainKey(pairs[j].0).Some?
    requires forall c | c in table :: ShiftedKey(c) == Some(table[c])
    ensures forall c | c in more :: ShiftedKey(c) == Some(more[c])
    ensures table.Keys <= more.Keys && forall j | 0 <= j < |pairs| :: pairs[j].1 in more
  {
    hide PlainKey;
    more := table;
    for i := 0 to |pairs|
      invariant forall c | c in more :: ShiftedKey(c) == Some(more[c])
      invariant table.Keys <= more.Keys && forall j | 0 <= j < i :: pairs[j].1 in more
    {
      more := more[pairs[i].1 := plain[pairs[i].0]];
    }
  }

  /** The pairs are all the symbols. */
  lemma AllSymbols(c: char, pairs: seq<(char, char)>)
    requires BaseOf(c).Some? && |pairs| == 10
    requires forall i | 0 <= i < 10 :: pairs[i] == (DIGITS[i], DIGIT_SYMBOLS[i])
    ensures 'A' <= c <= 'Z' || (exists i | 0 <= i < 10 :: pairs[i].1 == c)
            || (exists i | 0 <= i < |SYMBOL_PAIRS| :: SYMBOL_PAIRS[i].1 == c)
  {
    if !('A' <= c <= 'Z') {
      assert pairs[0].1 == '!' && pairs[1].1 == '@' && pairs[2].1 == '#' && pairs[3].1 == '$' && pairs[4].1 == '%';
      assert pairs[5].1 == '^' && pairs[6].1 == '&' && pairs[7].1 == '*' && pairs[8].1 == '(' && pairs[9].1 == ')';
      assert SYMBOL_PAIRS[0].1 == '_' && SYMBOL_PAIRS[1].1 == '+' && SYMBOL_PAIRS[2].1 == '{' && SYMBOL_PAIRS[3].1 == '}';
      assert SYMBOL_PAIRS[4].1 == '|' && SYMBOL_PAIRS[5].1 == ':' && SYMBOL_PAIRS[6].1 == '"' && SYMBOL_PAIRS[7].1 == '~';
      assert SYMBOL_PAIRS[8].1 == '<' && SYMBOL_PAIRS[9].1 == '>' && SYMBOL_PAIRS[10].1 == '?';
    }
  }

  // ---------------------------------------------------------------- pressing characters

  /** The report that presses a character's key. */
  function Press(c: char): Option<Report> {
    if PlainKey(c).Some? then Some(Report(0, PlainKey(c).value))
    else if ShiftedKey(c).Some? then Some(Report(SHIFT, ShiftedKey(c).value))
    else None
  }

  /** A host reads back the character whose key was pressed. */
  lemma PressReadsBack(c: char)
    requires Press(c).Some?
    ensures Glyph(Press(c).value) == [c] && Press(c).value.key != 0 && IsBytes(Press(c).value)
  {
    if PlainKey(c).Some? {
      PlainReadsBack(c);
    } else {
      ShiftedReadsBack(c);
    }
  }

  lemma PlainReadsBack(c: char)
    requires PlainKey(c).Some?
    ensures UsageChar(PlainKey(c).value, false) == Some(c) && 0 < PlainKey(c).value < 256
  {
    if '1' <= c <= '9' {
      Digit(c as int - '1' as int);
    }
  }

  lemma ShiftedReadsBack(c: char)
    requires ShiftedKey(c).Some?
    ensures UsageChar(ShiftedKey(c).value, true) == Some(c) && 0 < ShiftedKey(c).value < 256
  {
  }

  /** How much of a text can be typed: up to its first untypable character. */
  function Typable(text: string): (n: nat)
    ensures n <= |text|
    ensures forall i | 0 <= i < n :: Press(text[i]).Some?
    ensures n < |text| ==> Press(text[n]).None?
  {
    if text == "" || Press(text[0]).None? then 0 else 1 + Typable(text[1..])
  }

  function Presses(text: string): seq<Report> {
    if text == "" then [] else
      Presses(text[..|text| - 1])
      + (match Press(text[|text| - 1]) case Some(r) => [r] case None => [])
  }

  /** A press and its release. */
  function Taps(presses: seq<Report>): seq<Report> {
    if presses == [] then [] else Taps(presses[..|presses| - 1]) + [presses[|presses| - 1], NEUTRAL]
  }

  lemma TapsStep(presses: seq<Report>, press: Report)
    ensures Taps(presses + [press]) == Taps(presses) + [press, NEUTRAL]
    ensures Glyphs(presses + [press]) == Glyphs(presses) + Glyph(press)
  {
    assert (presses + [press])[..|presses|] == presses;
  }

  lemma PressesStep(text: string, c: char)
    ensures Presses(text + [c]) == Presses(text) + (match Press(c) case Some(r) => [r] case None => [])
  {
    assert (text + [c])[..|text|] == text;
  }

  predicate RealKeys(presses: seq<Report>) { forall i | 0 <= i < |presses| :: presses[i].key != 0 && IsBytes(presses[i]) }

  lemma HostStep(reports: seq<Report>, r: Report)
    ensures HostText(reports + [r]) == HostText(reports)
              + (if r.key != 0 && (reports == [] || reports[|reports| - 1].key != r.key) then Glyph(r) else "")
  {
    assert (reports + [r])[..|reports|] == reports;
  }

  /** After the initial release, a host reads taps as their glyphs, repeated keys included. */
  lemma {:induction false} HostReadsTaps(presses: seq<Report>)
    requires RealKeys(presses)
    ensures HostText([NEUTRAL] + Taps(presses)) == Glyphs(presses)
    ensures ([NEUTRAL] + Taps(presses))[|Taps(presses)|] == NEUTRAL
  {
    if presses == [] {
      assert [NEUTRAL] + Taps(presses) == [] + [NEUTRAL];
      HostStep([], NEUTRAL);
    } else {
      var init, last := presses[..|presses| - 1], presses[|presses| - 1];
      HostReadsTaps(init);
      var before := [NEUTRAL] + Taps(init);
      assert [NEUTRAL] + Taps(presses) == before + [last] + [NEUTRAL];
      HostStep(before, last);
      HostStep(before + [last], NEUTRAL);
    }
  }

  /** A host that has seen less has read less. */
  lemma {:induction false} HostPrefix(reports: seq<Report>, n: nat)
    requires n <= |reports|
    ensures HostText(reports[..n]) <= HostText(reports)
  {
    if n == |reports| {
      assert reports[..n] == reports;
    } else {
      HostPrefix(reports[..|reports| - 1], n);
      assert reports[..|reports| - 1][..n] == reports[..n];
    }
  }

  /** Typing round trip: the glyphs of a typable text's presses are the text. */
  lemma {:induction false} PressesReadBack(text: string)
    requires Typable(text) == |text|
    ensures Glyphs(Presses(text)) == text && RealKeys(Presses(text)) && |Presses(text)| == |text|
  {
    hide Press, Glyph, IsBytes;
    if text != "" {
      var init, last := text[..|text| - 1], text[|text| - 1];
      assert text == init + [last];
      TypableInit(text);
      PressesReadBack(init);
      PressReadsBack(last);
      TapsStep(Presses(init), Press(last).value);
    }
  }

  lemma TypableInit(text: string)
    requires text != "" && Typable(text) == |text|
    ensures Typable(text[..|text| - 1]) == |text| - 1
  {
    var init := text[..|text| - 1];
    assert forall i | 0 <= i < |init| :: init[i] == text[i];
  }

  lemma {:induction false} TapsAppend(a: seq<Report>, b: seq<Report>)
    ensures Taps(a + b) == Taps(a) + Taps(b)
  {
    if b == [] {
      assert a + b == a;
    } else {
      TapsAppend(a, b[..|b| - 1]);
      assert (a + b)[..|a + b| - 1] == a + b[..|b| - 1];
    }
  }

  // ---------------------------------------------------------------- tokens

  const NAMED: map<string, int> := map[
    "enter" := 0x28, "esc" := 0x29, "bksp" := 0x2A, "tab" := 0x2B, "space" := 0x2C, "capslock" := 0x39,
    "right" := 0x4F, "left" := 0x50, "down" := 0x51, "up" := 0x52, "ins" := 0x49, "home" := 0x4A,
    "pgup" := 0x4B, "del" := 0x4C, "end" := 0x4D, "pgdn" := 0x4E, "pause" := 0x48,
    "f1" := 0x3A, "f2" := 0x3B, "f3" := 0x3C, "f4" := 0x3D, "f5" := 0x3E, "f6" := 0x3F,
    "f7" := 0x40, "f8" := 0x41, "f9" := 0x42, "f10" := 0x43, "f11" := 0x44, "f12" := 0x45]

  function Lower(s: string): (t: string)
    ensures |t| == |s|
  {
    seq(|s|, i requires 0 <= i < |s| => if 'A' <= s[i] <= 'Z' then (s[i] as int + 32) as char else s[i])
  }

  /** What `float()` makes of a string. */
  datatype Seconds = Unparseable | NotFinite | Micros(micros: int)

  datatype Action = Sleep(argument: string) | Type(text: string) | Key(report: Report) | Unknown

  function Parse(token: string): Action {
    var low := Lower(token);
    if "sleep:" <= token then Sleep(token[6..])
    else if "type:" <= token then Type(token[5..])
    else if low in NAMED then Key(Report(0, NAMED[low]))
    else if "ctrl-alt-" <= low then
      var rest := low[9..];
      if rest in NAMED then Key(Report(CTRL_ALT, NAMED[rest]))
      else if |rest| == 1 && PlainKey(rest[0]).Some? then Key(Report(CTRL_ALT, PlainKey(rest[0]).value))
      else Unknown
    else Unknown
  }

  /** The keys a token presses, up to what it cannot. */
  function TokenPresses(token: string): seq<Report> {
    match Parse(token)
    case Type(text) => Presses(text[..Typable(text)])
    case Key(report) => [report]
    case _ => []
  }

  predicate Understood(token: string) {
    match Parse(token)
    case Type(text) => Typable(text) == |text|
    case Unknown => false
    case _ => true
  }

  /** The token can be carried out: it is understood, and a sleep is for a finite, nonnegative time. */
  predicate Fit(token: string, parse: string -> Seconds) {
    Understood(token) && (Parse(token).Sleep? ==> parse(Parse(token).argument).Micros? && parse(Parse(token).argument).micros >= 0)
  }

  /** The keys a command line presses, up to the first token or character it cannot. */
  function AllPresses(tokens: seq<string>): seq<Report> {
    if tokens == [] then []
    else TokenPresses(tokens[0]) + (if Understood(tokens[0]) then AllPresses(tokens[1..]) else [])
  }

  /** The pauses a token asks for at most, in microseconds. */
  function TokenPauses(token: string, parse: string -> Seconds): (n: int)
    ensures 0 <= n
  {
    match Parse(token)
    case Sleep(argument) =>
      (match parse(argument)
       case Micros(micros) => Max(0, micros)
       case _ => 0)
    case _ => TAP_PAUSES * |TokenPresses(token)|
  }

  /** And a command line, up to the first token or character that it cannot press. */
  function AllPauses(tokens: seq<string>, parse: string -> Seconds): (n: int)
    ensures 0 <= n
  {
    if tokens == [] then 0
    else TokenPauses(tokens[0], parse) + (if Understood(tokens[0]) then AllPauses(tokens[1..], parse) else 0)
  }

  /** When everything a command line asks for is done at the latest, if no call overruns. */
  function Latest(tokens: seq<string>, parse: string -> Seconds, requestedAt: int): int {
    requestedAt + IO_BUDGET + AllPauses(tokens, parse) + REPORT_ALLOWANCE * (1 + 2 * |AllPresses(tokens)|) + POLL_ROUNDING
  }

  lemma NamedKeys(name: string)
    requires name in NAMED
    ensures 0 < NAMED[name] < 256
  {
  }

  lemma NamesAreUsages(name: string)
    requires name in NAMED
    ensures UsageName(NAMED[name]) == Some(name)
  {
    assert EDITING[0] == "enter" && EDITING[1] == "esc" && EDITING[2] == "bksp" && EDITING[3] == "tab" && EDITING[4] == "space";
    assert FUNCTIONS[0] == "f1" && FUNCTIONS[1] == "f2" && FUNCTIONS[2] == "f3" && FUNCTIONS[3] == "f4" && FUNCTIONS[4] == "f5";
    assert FUNCTIONS[5] == "f6" && FUNCTIONS[6] == "f7" && FUNCTIONS[7] == "f8" && FUNCTIONS[8] == "f9" && FUNCTIONS[9] == "f10";
    assert FUNCTIONS[10] == "f11" && FUNCTIONS[11] == "f12" && NAVIGATION[0] == "pause" && NAVIGATION[1] == "ins";
    assert NAVIGATION[2] == "home" && NAVIGATION[3] == "pgup" && NAVIGATION[4] == "del" && NAVIGATION[5] == "end";
    assert NAVIGATION[6] == "pgdn" && NAVIGATION[7] == "right" && NAVIGATION[8] == "left" && NAVIGATION[9] == "down";
    assert NAVIGATION[10] == "up";
  }

  lemma UsagesAreNames(key: int)
    requires UsageName(key).Some?
    ensures UsageName(key).value in NAMED && NAMED[UsageName(key).value] == key
  {
  }

  /** A key token presses exactly the keys that it names, whatever its case. */
  lemma KeyTokenSpells(token: string)
    requires Parse(token).Key?
    ensures Spells(Parse(token).report, Lower(token))
  {
    var low, report := Lower(token), Parse(token).report;
    hide UsageName, UsageChar, NAMED, PlainKey;
    if low in NAMED {
      NamesAreUsages(low);
      assert low == Held(0) + low;
    } else {
      var rest := low[9..];
      assert Held(CTRL_ALT) == "ctrl-alt-" && low == "ctrl-alt-" + rest;
      if rest in NAMED {
        NamesAreUsages(rest);
      } else {
        PlainReadsBack(rest[0]);
      }
    }
  }

  /** And a token that names a key, alone or after ctrl-alt-, is one for that key. */
  lemma NamedKeysHaveTokens(token: string, key: int)
    requires UsageName(key).Some? && !("sleep:" <= token) && !("type:" <= token)
    ensures Lower(token) == UsageName(key).value ==> Parse(token) == Key(Report(0, key))
    ensures Lower(token) !in NAMED && Lower(token) == "ctrl-alt-" + UsageName(key).value ==> Parse(token) == Key(Report(CTRL_ALT, key))
  {
    UsagesAreNames(key);
    hide UsageName;
    if Lower(token) == "ctrl-alt-" + UsageName(key).value {
      assert Lower(token)[9..] == UsageName(key).value && "ctrl-alt-" <= Lower(token);
    }
  }

  /** So has every character that is typed without Shift, after ctrl-alt-. */
  lemma PlainKeysHaveTokens(token: string, c: char)
    requires PlainKey(c).Some? && Lower(token) == "ctrl-alt-" + [c] && Lower(token) !in NAMED
    requires !("sleep:" <= token) && !("type:" <= token) && [c] !in NAMED
    ensures Parse(token) == Key(Report(CTRL_ALT, PlainKey(c).value))
  {
    assert Lower(token)[9..] == [c] && "ctrl-alt-" <= Lower(token);
  }

  /** Every sleep: and type: token is one, whatever follows. */
  lemma PrefixTokensParse(rest: string)
    ensures Parse("sleep:" + rest) == Sleep(rest) && Parse("type:" + rest) == Type(rest)
  {
    TypeTokenParses(rest);
    var token := "sleep:" + rest;
    assert token[6..] == rest && token[..6] == "sleep:";
  }

  /** Capitals become their small letters, and nothing else changes. */
  lemma LowerLetters(s: string, i: nat)
    requires i < |s|
    ensures forall k | 0 <= k < 26 && s[i] == CAPITALS[k] :: Lower(s)[i] == LETTERS[k]
    ensures (forall k | 0 <= k < 26 :: s[i] != CAPITALS[k]) ==> Lower(s)[i] == s[i]
  {
    forall k | 0 <= k < 26 && s[i] == CAPITALS[k] ensures Lower(s)[i] == LETTERS[k] {
      Letter(k);
    }
    if 'A' <= s[i] <= 'Z' {
      Letter(s[i] as int - 'A' as int);
    }
  }

  lemma {:induction false} PressesAreKeys(text: string)
    ensures RealKeys(Presses(text))
  {
    if text != "" {
      PressesAreKeys(text[..|text| - 1]);
      if Press(text[|text| - 1]).Some? {
        PressReadsBack(text[|text| - 1]);
      }
    }
  }

  lemma {:induction false} AllPressesAreKeys(tokens: seq<string>)
    ensures RealKeys(AllPresses(tokens))
  {
    if tokens != [] {
      AllPressesAreKeys(tokens[1..]);
      match Parse(tokens[0]) {
        case Type(text) => PressesAreKeys(text[..Typable(text)]);
        case Key(report) => KeyIsReal(tokens[0]);
        case _ =>
      }
    }
  }

  lemma KeyIsReal(token: string)
    requires Parse(token).Key?
    ensures Parse(token).report.key != 0 && IsBytes(Parse(token).report)
  {
    var low := Lower(token);
    if low in NAMED {
      NamedKeys(low);
    } else if low[9..] in NAMED {
      NamedKeys(low[9..]);
    }
  }

  // ---------------------------------------------------------------- sending

  /** The reports asked for so far belong to a release followed by the taps of these presses. */
  predicate Within(requested: seq<Report>, presses: seq<Report>) {
    requested <= [NEUTRAL] + Taps(presses)
  }

  /** The gap that follows submission `i`: none after the first release, a hold after a press and a
      wait after its release. */
  function Gap(i: nat): int {
    if i == 0 then 0 else if i % 2 == 1 then KEY_HOLD else INTER_KEY
  }

  /** Each report was asked for no sooner than the gap after the one before. */
  predicate Paced(sent: seq<Submission>) {
    forall i | 0 <= i < |sent| - 1 :: sent[i + 1].asked >= sent[i].at + Gap(i)
  }

  /** And the gap after the last is over. */
  predicate PacedBy(sent: seq<Submission>, now: int) {
    Paced(sent) && (sent != [] ==> now >= sent[|sent| - 1].at + Gap(|sent| - 1))
  }

  lemma IsPaced(sent: seq<Submission>, now: int)
    requires PacedBy(sent, now)
    ensures Paced(sent)
  {
  }

  /** Time passes. */
  lemma PacedLater(sent: seq<Submission>, now: int, later: int)
    requires PacedBy(sent, now) && now <= later
    ensures PacedBy(sent, later)
  {
  }

  lemma PacedNext(before: seq<Submission>, after: seq<Submission>, now: int)
    requires PacedBy(before, now) && Adds(before, after, now)
    ensures Paced(after)
  {
  }

  lemma PacedWait(sent: seq<Submission>, now: int, n: nat)
    requires Paced(sent) && |sent| == n + 1 && now >= sent[n].at + Gap(n)
    ensures PacedBy(sent, now)
  {
  }

  /** Press, hold, release, wait. */
  method Tap(keyboard: HidKeyboard, report: Report) returns (raised: Option<Raised>)
    requires keyboard.Valid() && keyboard.isOpen && !keyboard.failed
    requires |keyboard.requested| % 2 == 1 && PacedBy(keyboard.device.sent, keyboard.device.now)
    modifies keyboard, keyboard.device
    ensures keyboard.isOpen
    ensures keyboard.Valid() && (raised.Some? <==> keyboard.failed)
    ensures raised.None? ==> keyboard.requested == old(keyboard.requested) + [report, NEUTRAL]
    ensures raised.None? ==> keyboard.paused == old(keyboard.paused) + KEY_HOLD + INTER_KEY
    ensures old(keyboard.requested) <= keyboard.requested <= old(keyboard.requested) + [report, NEUTRAL]
    ensures old(keyboard.begun) <= keyboard.begun <= old(keyboard.begun) + TAP_PAUSES
    ensures raised != Some(SystemExit)
    ensures Paced(keyboard.device.sent) && (raised.None? ==> PacedBy(keyboard.device.sent, keyboard.device.now))
  {
    hide InOrder, Timely, PausesGrow, AllComplete, AllBytes, Paced, PacedBy, Adds;
    ghost var n, before, since := |keyboard.device.sent|, keyboard.device.sent, keyboard.device.now;
    raised := keyboard.WriteReport(report);
    PacedNext(before, keyboard.device.sent, since);
    if raised.Some? { return; }
    raised := keyboard.Pause(Some(KEY_HOLD));
    if raised.Some? { return; }
    PacedWait(keyboard.device.sent, keyboard.device.now, n);
    before, since := keyboard.device.sent, keyboard.device.now;
    raised := keyboard.WriteReport(NEUTRAL);
    PacedNext(before, keyboard.device.sent, since);
    if raised.Some? { return; }
    raised := keyboard.Pause(Some(INTER_KEY));
    if raised.Some? { return; }
    PacedWait(keyboard.device.sent, keyboard.device.now, n + 1);
  }

  /** The report that the tables give for a character. */
  method KeyFor(c: char, plain: map<char, int>, shifted: map<char, int>) returns (report: Option<Report>)
    requires Tabulates(plain, PlainKey) && Tabulates(shifted, ShiftedKey)
    ensures report == Press(c)
  {
    if c in plain {
      report := Some(Report(0, plain[c]));
    } else if c in shifted {
      report := Some(Report(SHIFT, shifted[c]));
    } else {
      report := None;
    }
  }

  /** Type a text. An untypable character ends it with exactly the characters before it typed. */
  method TypeText(keyboard: HidKeyboard, text: string, ghost done: seq<Report>,
                  plain: map<char, int>, shifted: map<char, int>)
    returns (raised: Option<Raised>)
    requires keyboard.Valid() && keyboard.isOpen && !keyboard.failed
    requires keyboard.requested == [NEUTRAL] + Taps(done)
    requires Tabulates(plain, PlainKey) && Tabulates(shifted, ShiftedKey)
    requires PacedBy(keyboard.device.sent, keyboard.device.now)
    modifies keyboard, keyboard.device
    ensures keyboard.isOpen
    ensures keyboard.Valid()
    ensures Within(keyboard.requested, done + Presses(text[..Typable(text)]))
    ensures raised.None? || raised == Some(SystemExit) ==>
              !keyboard.failed && keyboard.requested == [NEUTRAL] + Taps(done + Presses(text[..Typable(text)]))
    ensures keyboard.begun <= old(keyboard.begun) + TAP_PAUSES * |Presses(text[..Typable(text)])|
    ensures raised.None? ==> Typable(text) == |text|
    ensures raised == Some(SystemExit) ==> Typable(text) < |text|
    ensures raised.Some? ==> keyboard.failed || Typable(text) < |text|
    ensures Paced(keyboard.device.sent) && (raised.None? ==> PacedBy(keyboard.device.sent, keyboard.device.now))
  {
    NothingTyped(done, text);
    ghost var typed := done;
    hide Presses, Taps, Within, Typable, Press, Tabulates, Paced, PacedBy, HidKeyboard.Valid;
    for k := 0 to |text|
      invariant keyboard.Valid() && keyboard.isOpen && !keyboard.failed && k <= Typable(text)
      invariant typed == done + Presses(text[..k]) && keyboard.requested == [NEUTRAL] + Taps(typed)
      invariant keyboard.begun <= old(keyboard.begun) + TAP_PAUSES * |Presses(text[..k])|
      invariant PacedBy(keyboard.device.sent, keyboard.device.now)
    {
      TapsLength(typed);
      IsPaced(keyboard.device.sent, keyboard.device.now);
      TypedWithin(keyboard.requested, done, text, k);
      var report := KeyFor(text[k], plain, shifted);
      if report.None? {
        NothingPresses(text, k);
        return Some(SystemExit);
      }
      NextPress(done, text, k, report.value);
      raised := Tap(keyboard, report.value);
      TapWithin(keyboard.requested, typed, report.value);
      typed := typed + [report.value];
      if raised.Some? {
        TypedWithin(keyboard.requested, done, text, k + 1);
        return;
      }
    }
    assert text[..|text|] == text;
    TypedWithin(keyboard.requested, done, text, |text|);
    IsPaced(keyboard.device.sent, keyboard.device.now);
    raised := None;
  }

  lemma NothingTyped(done: seq<Report>, text: string)
    ensures done == done + Presses(text[..0]) && |Presses(text[..0])| == 0
  {
  }

  /** What belongs to the first characters belongs to the text. */
  lemma TypedWithin(requested: seq<Report>, done: seq<Report>, text: string, k: nat)
    requires k <= Typable(text) && Within(requested, done + Presses(text[..k]))
    ensures Within(requested, done + Presses(text[..Typable(text)]))
  {
    PressesPrefix(text[..Typable(text)], k);
    assert text[..Typable(text)][..k] == text[..k];
    TapsMonotone(done, Presses(text[..k]), Presses(text[..Typable(text)]));
  }

  lemma NothingPresses(text: string, k: nat)
    requires k < |text| && Press(text[k]).None? && k <= Typable(text)
    ensures Typable(text) == k
  {
  }

  /** One more character of a typable stretch is one more press. */
  lemma NextPress(done: seq<Report>, text: string, k: nat, report: Report)
    requires k < |text| && Press(text[k]) == Some(report) && k <= Typable(text)
    ensures k < Typable(text)
    ensures |Presses(text[..k])| + 1 == |Presses(text[..k + 1])| <= |Presses(text[..Typable(text)])|
    ensures done + Presses(text[..k + 1]) == done + Presses(text[..k]) + [report]
  {
    assert text[..k + 1] == text[..k] + [text[k]];
    PressesStep(text[..k], text[k]);
    PressesPrefix(text[..Typable(text)], k + 1);
    assert text[..Typable(text)][..k + 1] == text[..k + 1];
  }

  lemma TapsMonotone(done: seq<Report>, a: seq<Report>, b: seq<Report>)
    requires a <= b
    ensures [NEUTRAL] + Taps(done + a) <= [NEUTRAL] + Taps(done + b)
  {
    TapsAppend(done + a, b[|a|..]);
    assert done + a + b[|a|..] == done + b;
  }

  lemma {:induction false} PressesPrefix(text: string, n: nat)
    requires n <= |text|
    ensures Presses(text[..n]) <= Presses(text)
  {
    if n == |text| {
      assert text[..n] == text;
    } else {
      PressesPrefix(text[..|text| - 1], n);
      assert text[..|text| - 1][..n] == text[..n];
    }
  }

  /** The token loop: a first release, then each token until one fails or is not understood. */
  method SendTokens(keyboard: HidKeyboard, tokens: seq<string>, parse: string -> Seconds) returns (raised: Option<Raised>)
    requires keyboard.Valid() && keyboard.isOpen && !keyboard.failed && keyboard.requested == []
    modifies keyboard, keyboard.device
    ensures keyboard.isOpen
    ensures keyboard.Valid() && Within(keyboard.requested, AllPresses(tokens))
    ensures raised.None? || raised == Some(SystemExit) ==>
              !keyboard.failed && keyboard.requested == [NEUTRAL] + Taps(AllPresses(tokens))
    ensures raised.None? ==> AllFit(tokens, parse)
    ensures raised.Some? ==> keyboard.failed || !AllFit(tokens, parse)
    ensures Paced(keyboard.device.sent)
    ensures keyboard.begun <= old(keyboard.begun) + AllPauses(tokens, parse)
  {
    var plain := BuildPlain();
    var shifted := BuildShifted(plain);
    ghost var done: seq<Report> := [];
    ghost var since := keyboard.device.now;
    PacedStart(keyboard.device.sent, since);
    raised := keyboard.WriteReport(NEUTRAL);
    PacedNext([], keyboard.device.sent, since);
    Beginning(AllPresses(tokens));
    if raised.Some? {
      return;
    }
    PacedWait(keyboard.device.sent, keyboard.device.now, 0);
    assert tokens[0..] == tokens && [] + AllPresses(tokens) == AllPresses(tokens);
    for k := 0 to |tokens|
      invariant keyboard.Valid() && keyboard.isOpen && !keyboard.failed
      invariant keyboard.requested == [NEUTRAL] + Taps(done)
      invariant done + AllPresses(tokens[k..]) == AllPresses(tokens)
      invariant forall i | 0 <= i < k :: Fit(tokens[i], parse)
      invariant PacedBy(keyboard.device.sent, keyboard.device.now)
      invariant keyboard.begun + AllPauses(tokens[k..], parse) <= old(keyboard.begun) + AllPauses(tokens, parse)
    {
      TokenNext(done, tokens, k);
      AllPausesStep(tokens, k, parse);
      raised := SendToken(keyboard, tokens[k], parse, done, plain, shifted);
      if raised.Some? {
        WithinToken(keyboard.requested, done + TokenPresses(tokens[k]), AllPresses(tokens));
        return;
      }
      done := done + TokenPresses(tokens[k]);
    }
    assert done + [] == done;
    IsPaced(keyboard.device.sent, keyboard.device.now);
    raised := None;
  }

  /** Every token of the command line can be carried out. */
  ghost predicate AllFit(tokens: seq<string>, parse: string -> Seconds) {
    forall i | 0 <= i < |tokens| :: Fit(tokens[i], parse)
  }

  lemma PacedStart(sent: seq<Submission>, now: int)
    requires sent == []
    ensures PacedBy(sent, now)
  {
  }

  lemma Beginning(presses: seq<Report>)
    ensures Within([NEUTRAL], presses) && Taps([]) == [] && [NEUTRAL] + [] == [NEUTRAL]
  {
  }

  lemma TokenNext(done: seq<Report>, tokens: seq<string>, k: nat)
    requires k < |tokens| && done + AllPresses(tokens[k..]) == AllPresses(tokens)
    ensures Understood(tokens[k]) ==> done + TokenPresses(tokens[k]) + AllPresses(tokens[k + 1..]) == AllPresses(tokens)
    ensures !Understood(tokens[k]) ==> done + TokenPresses(tokens[k]) == AllPresses(tokens)
    ensures Within([NEUTRAL] + Taps(done + TokenPresses(tokens[k])), AllPresses(tokens))
  {
    AllPressesStep(tokens, k);
    Chain(done, TokenPresses(tokens[k]), if Understood(tokens[k]) then AllPresses(tokens[k + 1..]) else [], AllPresses(tokens));
  }

  lemma Chain(done: seq<Report>, some: seq<Report>, rest: seq<Report>, all: seq<Report>)
    requires done + (some + rest) == all
    ensures done + some + rest == all && (rest == [] ==> done + some == all)
    ensures Within([NEUTRAL] + Taps(done + some), all)
  {
    assert some <= some + rest;
    TapsWithin(done, some, some + rest);
  }

  lemma TapsWithin(done: seq<Report>, a: seq<Report>, b: seq<Report>)
    requires a <= b
    ensures Within([NEUTRAL] + Taps(done + a), done + b)
  {
    TapsMonotone(done, a, b);
  }

  /** Part of the taps of a token is part of the taps of the command line. */
  lemma WithinToken(requested: seq<Report>, some: seq<Report>, all: seq<Report>)
    requires Within(requested, some) && Within([NEUTRAL] + Taps(some), all)
    ensures Within(requested, all)
  {
  }

  lemma AllPressesStep(tokens: seq<string>, k: nat)
    requires k < |tokens|
    ensures AllPresses(tokens[k..])
         == TokenPresses(tokens[k]) + (if Understood(tokens[k]) then AllPresses(tokens[k + 1..]) else [])
  {
    assert tokens[k..][0] == tokens[k] && tokens[k..][1..] == tokens[k + 1..];
  }

  lemma AllPausesStep(tokens: seq<string>, k: nat, parse: string -> Seconds)
    requires k < |tokens|
    ensures AllPauses(tokens[k..], parse)
         == TokenPauses(tokens[k], parse) + (if Understood(tokens[k]) then AllPauses(tokens[k + 1..], parse) else 0)
  {
    assert tokens[k..][0] == tokens[k] && tokens[k..][1..] == tokens[k + 1..];
  }

  lemma TokenMeans(token: string, parse: string -> Seconds)
    ensures Understood(token) <==> match Parse(token) case Type(text) => Typable(text) == |text| case Unknown => false case _ => true
    ensures Fit(token, parse) <==> Understood(token) && match Parse(token)
                                                        case Sleep(argument) => parse(argument).Micros? && parse(argument).micros >= 0
                                                        case _ => true
    ensures TokenPresses(token) == match Parse(token)
                                   case Type(text) => Presses(text[..Typable(text)])
                                   case Key(report) => [report]
                                   case _ => []
    ensures TokenPauses(token, parse) >= match Parse(token)
                                         case Sleep(argument) => (match parse(argument) case Micros(micros) => Max(0, micros) case _ => 0)
                                         case Type(text) => TAP_PAUSES * |Presses(text[..Typable(text)])|
                                         case Key(_) => TAP_PAUSES
                                         case Unknown => 0
  {
  }

  lemma TapWithin(requested: seq<Report>, done: seq<Report>, report: Report)
    requires requested <= [NEUTRAL] + Taps(done) + [report, NEUTRAL]
    ensures Within(requested, done + [report])
    ensures requested == [NEUTRAL] + Taps(done) + [report, NEUTRAL] ==> requested == [NEUTRAL] + Taps(done + [report])
  {
    TapsStep(done, report);
    assert [NEUTRAL] + Taps(done) + [report, NEUTRAL] == [NEUTRAL] + Taps(done + [report]);
  }

  /** One token. */
  method SendToken(keyboard: HidKeyboard, token: string, parse: string -> Seconds, ghost done: seq<Report>,
                   plain: map<char, int>, shifted: map<char, int>)
    returns (raised: Option<Raised>)
    requires keyboard.Valid() && keyboard.isOpen && !keyboard.failed
    requires keyboard.requested == [NEUTRAL] + Taps(done)
    requires Tabulates(plain, PlainKey) && Tabulates(shifted, ShiftedKey)
    requires PacedBy(keyboard.device.sent, keyboard.device.now)
    modifies keyboard, keyboard.device
    ensures keyboard.isOpen
    ensures keyboard.Valid() && Within(keyboard.requested, done + TokenPresses(token))
    ensures raised.None? || raised == Some(SystemExit) ==>
              !keyboard.failed && keyboard.requested == [NEUTRAL] + Taps(done + TokenPresses(token))
    ensures keyboard.begun <= old(keyboard.begun) + TokenPauses(token, parse)
    ensures raised.None? ==> Fit(token, parse)
    ensures raised.Some? ==> keyboard.failed || !Fit(token, parse)
    ensures raised == Some(SystemExit) ==> !Understood(token)
    ensures Paced(keyboard.device.sent) && (raised.None? ==> PacedBy(keyboard.device.sent, keyboard.device.now))
  {
    assert done + [] == done;
    TokenMeans(token, parse);
    TapsLength(done);
    IsPaced(keyboard.device.sent, keyboard.device.now);
    ghost var sent, since := keyboard.device.sent, keyboard.device.now;
    hide *;
    match Parse(token) {
      case Sleep(argument) =>
        raised := SendSleep(keyboard, parse(argument));
        PacedLater(sent, since, keyboard.device.now);
      case Type(text) =>
        raised := TypeText(keyboard, text, done, plain, shifted);
      case Key(report) =>
        raised := Tap(keyboard, report);
        TapWithin(keyboard.requested, done, report);
      case Unknown =>
        return Some(SystemExit);
    }
  }

  /** A sleep, which is refused unless it is for a finite, nonnegative time. */
  method SendSleep(keyboard: HidKeyboard, seconds: Seconds) returns (raised: Option<Raised>)
    requires keyboard.Valid() && keyboard.isOpen && !keyboard.failed
    modifies keyboard, keyboard.device
    ensures keyboard.Valid() && keyboard.isOpen && keyboard.requested == old(keyboard.requested)
    ensures keyboard.device.sent == old(keyboard.device.sent) && keyboard.device.now >= old(keyboard.device.now)
    ensures raised.None? ==> !keyboard.failed && seconds.Micros? && seconds.micros >= 0
    ensures raised.Some? ==> keyboard.failed || !(seconds.Micros? && seconds.micros >= 0)
    ensures keyboard.begun <= old(keyboard.begun) + if seconds.Micros? then Max(0, seconds.micros) else 0
    ensures raised != Some(SystemExit)
  {
    hide HidKeyboard.Valid;
    match seconds {
      case Unparseable => return Some(BadValue);
      case NotFinite => raised := keyboard.Pause(None);
      case Micros(micros) => raised := keyboard.Pause(Some(micros));
    }
  }

  // ---------------------------------------------------------------- a whole run

  /** The reports handed over in full: a short record is not one. */
  function Delivered(sent: seq<Submission>): seq<Report> {
    if sent == [] then [] else
      var last := sent[|sent| - 1];
      Delivered(sent[..|sent| - 1]) + (if last.count == REPORT_BYTES then [last.report] else [])
  }

  /** What a sequence delivers is the beginning of what it was asked for, and all of it if every
      submission was complete. */
  lemma {:induction false} DeliveredInOrder(sent: seq<Submission>, requested: seq<Report>)
    requires InOrder(sent, requested)
    ensures Delivered(sent) <= requested
    ensures AllComplete(sent) ==> Delivered(sent) == requested[..|sent|]
  {
    if sent != [] {
      var init := sent[..|sent| - 1];
      assert AllComplete(init);
      DeliveredInOrder(init, requested);
      assert requested[..|init|] + [requested[|init|]] == requested[..|sent|];
    }
  }

  /** Cleanup changes nothing a host reads. */
  lemma CleanupIsSilent(before: seq<Submission>, after: seq<Submission>, limit: int, asked: int, paused: int)
    requires HandedOver(before, after, NEUTRAL, limit, asked, paused)
    ensures HostText(Delivered(after)) == HostText(Delivered(before))
  {
    if after != before {
      assert after[..|after| - 1] == before;
      HostStep(Delivered(before), NEUTRAL);
      if after[|before|].count != REPORT_BYTES {
        assert Delivered(before) + [] == Delivered(before);
      }
    }
  }

  /** Run the command. Whatever the device does, the submissions are a beginning of one release and
      the taps the command line spells, each once and in time, only the last possibly short, and
      then at most one neutral report; so a host reads the beginning of what the command line
      spells, and all of it when the run succeeds. The whole run, cleanup included, takes no longer
      than the command line says, plus whatever calls to the system overran. */
  method Command(tokens: seq<string>, parse: string -> Seconds, device: Device)
    returns (raised: Option<Raised>, ghost k: nat, ghost session: HidKeyboard?)
    requires device.sent == []
    modifies device
    ensures RunTrace(device.sent, k, [NEUTRAL] + Taps(AllPresses(tokens)), old(device.now), AllPauses(tokens, parse),
                     Latest(tokens, parse, old(device.now)) + device.overrun - old(device.overrun))
    ensures device.overrun >= old(device.overrun)
    ensures device.now <= Latest(tokens, parse, old(device.now)) + CLEANUP_TIMEOUT + POLL_ROUNDING + device.overrun - old(device.overrun)
    ensures HostText(Delivered(device.sent)) <= Glyphs(AllPresses(tokens))
    ensures raised.None? ==> && k == 1 + 2 * |AllPresses(tokens)| && |device.sent| == k + 1 && AllComplete(device.sent)
                             && HostText(Delivered(device.sent)) == Glyphs(AllPresses(tokens))
    ensures k <= |device.sent| && Paced(device.sent[..k])
    ensures raised.None? ==> tokens != [] && AllFit(tokens, parse) && device.troubles == old(device.troubles)
    ensures tokens != [] ==> session != null && fresh(session) && session.requestedAt == old(device.now) && session.LimitsStand()
    ensures raised.Some? ==> || tokens == [] || !AllFit(tokens, parse) || device.troubles > old(device.troubles)
                             || session.endedAt >= session.Limit() || device.now >= session.endedAt + CLEANUP_TIMEOUT
  {
    NothingSent(tokens, parse, device.now);
    k, session := 0, null;
    if tokens == [] {
      return Some(SystemExit), 0, null;
    }
    hide HostText, Delivered, Glyphs, AllPresses, AllPauses, AllFit, Taps, RunTrace, AllComplete, Paced, Latest;
    hide HidKeyboard.Valid, HidKeyboard.LimitsStand, HidKeyboard.Fresh, HidKeyboard.Limit;
    var keyboard := new HidKeyboard(device.now, device);
    session := keyboard;
    raised := keyboard.Enter();
    if raised.Some? {
      WaitedOnly(keyboard, tokens, parse);
      return;
    }
    raised, k := Session(keyboard, tokens, parse);
  }

  /** The sequence, once the keyboard is held, and its cleanup. */
  method Session(keyboard: HidKeyboard, tokens: seq<string>, parse: string -> Seconds) returns (raised: Option<Raised>, ghost k: nat)
    requires keyboard.Valid() && keyboard.isOpen && !keyboard.failed && keyboard.requested == [] && keyboard.begun == 0
    modifies keyboard, keyboard.device
    ensures RunTrace(keyboard.device.sent, k, [NEUTRAL] + Taps(AllPresses(tokens)), keyboard.requestedAt, AllPauses(tokens, parse),
                     Latest(tokens, parse, keyboard.requestedAt) + keyboard.device.overrun - keyboard.overrunBefore)
    ensures keyboard.device.overrun >= keyboard.overrunBefore
    ensures keyboard.device.Charged() <= Latest(tokens, parse, keyboard.requestedAt) + CLEANUP_TIMEOUT + POLL_ROUNDING - keyboard.overrunBefore
    ensures HostText(Delivered(keyboard.device.sent)) <= Glyphs(AllPresses(tokens))
    ensures raised.None? ==> && k == 1 + 2 * |AllPresses(tokens)| && |keyboard.device.sent| == k + 1 && AllComplete(keyboard.device.sent)
                             && HostText(Delivered(keyboard.device.sent)) == Glyphs(AllPresses(tokens))
    ensures k <= |keyboard.device.sent| && Paced(keyboard.device.sent[..k])
    ensures raised.None? ==> AllFit(tokens, parse) && keyboard.device.troubles == keyboard.troublesBefore
    ensures raised.Some? ==> || !AllFit(tokens, parse) || keyboard.device.troubles > keyboard.troublesBefore
                             || keyboard.endedAt >= keyboard.Limit() || keyboard.device.now >= keyboard.endedAt + CLEANUP_TIMEOUT
    ensures keyboard.LimitsStand()
  {
    hide HostText, Delivered, Glyphs, AllPresses, AllPauses, AllFit, Taps, Timely, InOrder, PausesGrow, RunTrace, AllBytes, Paced, Latest;
    var inside := SendTokens(keyboard, tokens, parse);
    ghost var sent, asked := keyboard.device.sent, keyboard.device.now;
    k := |sent|;
    RunReadsBack(tokens, sent, keyboard.requested, inside.None?);
    SequenceTrace(keyboard, tokens, parse);
    raised := keyboard.Exit(inside);
    CleanupIsSilent(sent, keyboard.device.sent, asked + CLEANUP_TIMEOUT, asked, keyboard.paused);
    CleanupTrace(sent, keyboard.device.sent, [NEUTRAL] + Taps(AllPresses(tokens)), keyboard.requestedAt, AllPauses(tokens, parse),
                 asked, keyboard.paused, Latest(tokens, parse, keyboard.requestedAt) + keyboard.device.overrun - keyboard.overrunBefore);
  }

  lemma NothingSent(tokens: seq<string>, parse: string -> Seconds, now: int)
    ensures HostText(Delivered([])) <= Glyphs(AllPresses(tokens)) && now <= Latest(tokens, parse, now)
    ensures forall latest: int :: RunTrace([], 0, [NEUTRAL] + Taps(AllPresses(tokens)), now, AllPauses(tokens, parse), latest)
  {
  }

  /** A sequence that never began has only waited. */
  lemma WaitedOnly(keyboard: HidKeyboard, tokens: seq<string>, parse: string -> Seconds)
    requires keyboard.device.Charged() <= keyboard.Horizon() && keyboard.begun == 0 && keyboard.completed == 0
    ensures keyboard.device.Charged() <= Latest(tokens, parse, keyboard.requestedAt) - keyboard.overrunBefore
  {
  }

  lemma {:induction false} TapsLength(presses: seq<Report>)
    ensures |Taps(presses)| == 2 * |presses|
  {
    if presses != [] {
      TapsLength(presses[..|presses| - 1]);
    }
  }

  lemma {:induction false} TapsAreBytes(presses: seq<Report>)
    requires RealKeys(presses)
    ensures AllBytes([NEUTRAL] + Taps(presses))
  {
    if presses != [] {
      var init, last := presses[..|presses| - 1], presses[|presses| - 1];
      assert RealKeys(init);
      TapsAreBytes(init);
      assert [NEUTRAL] + Taps(presses) == [NEUTRAL] + Taps(init) + [last, NEUTRAL];
    }
  }

  /** What the sequence has submitted by its end, and when at the latest it ends. */
  lemma SequenceTrace(keyboard: HidKeyboard, tokens: seq<string>, parse: string -> Seconds)
    requires keyboard.Valid() && Within(keyboard.requested, AllPresses(tokens)) && keyboard.begun <= AllPauses(tokens, parse)
    ensures InOrder(keyboard.device.sent, [NEUTRAL] + Taps(AllPresses(tokens)))
    ensures Timely(keyboard.device.sent, keyboard.requestedAt)
    ensures PausesGrow(keyboard.device.sent, AllPauses(tokens, parse))
    ensures keyboard.device.Charged() <= Latest(tokens, parse, keyboard.requestedAt) - keyboard.overrunBefore
    ensures |keyboard.device.sent| <= 1 + 2 * |AllPresses(tokens)|
    ensures |[NEUTRAL] + Taps(AllPresses(tokens))| == 1 + 2 * |AllPresses(tokens)|
    ensures keyboard.failed ==> keyboard.Excused(keyboard.device.now)
  {
    TapsLength(AllPresses(tokens));
    AllPressesAreKeys(tokens);
    TapsAreBytes(AllPresses(tokens));
    var bound := 1 + 2 * |AllPresses(tokens)|;
    assert keyboard.completed <= |keyboard.device.sent| <= |keyboard.requested| <= bound;
    assert REPORT_ALLOWANCE * keyboard.completed <= REPORT_ALLOWANCE * bound;
  }

  lemma CleanupTrace(before: seq<Submission>, after: seq<Submission>, requested: seq<Report>, requestedAt: int, pauses: int,
                     asked: int, paused: int, latest: int)
    requires InOrder(before, requested) && Timely(before, requestedAt) && PausesGrow(before, pauses) && asked <= latest
    requires HandedOver(before, after, NEUTRAL, asked + CLEANUP_TIMEOUT, asked, paused)
    ensures RunTrace(after, |before|, requested, requestedAt, pauses, latest) && after[..|before|] == before
    ensures AllComplete(before) && |after| == |before| + 1 && after[|before|].count == REPORT_BYTES ==> AllComplete(after)
  {
    assert after[..|before|] == before;
    forall i | 0 <= i < |before| ensures after[i] == before[i] {
      assert after[..|before|][i] == after[i];
    }
  }

  lemma RunReadsBack(tokens: seq<string>, sent: seq<Submission>, requested: seq<Report>, succeeded: bool)
    requires Within(requested, AllPresses(tokens)) && InOrder(sent, requested)
    requires succeeded ==> && requested == [NEUTRAL] + Taps(AllPresses(tokens))
                           && |sent| == |requested| && AllComplete(sent)
    ensures HostText(Delivered(sent)) <= Glyphs(AllPresses(tokens))
    ensures succeeded ==> HostText(Delivered(sent)) == Glyphs(AllPresses(tokens))
  {
    var all := [NEUTRAL] + Taps(AllPresses(tokens));
    DeliveredInOrder(sent, requested);
    AllPressesAreKeys(tokens);
    HostReadsTaps(AllPresses(tokens));
    hide HostText, Delivered, Glyphs, AllPresses, Taps;
    assert Delivered(sent) == all[..|Delivered(sent)|];
    if succeeded {
      assert requested[..|sent|] == requested;
    }
    HostPrefix(all, |Delivered(sent)|);
  }

  /** For one `type:` token the text a host reads is the beginning of the literal that can be typed. */
  lemma TypeTokenSpells(text: string)
    ensures Glyphs(AllPresses(["type:" + text])) == text[..Typable(text)]
  {
    TypeTokenParses(text);
    OneToken("type:" + text);
    TypablePart(text);
    PressesReadBack(text[..Typable(text)]);
  }

  lemma OneToken(token: string)
    ensures AllPresses([token]) == TokenPresses(token)
  {
    var tokens: seq<string> := [token];
    assert AllPresses(tokens[1..]) == [];
  }

  lemma TypablePart(text: string)
    ensures Typable(text[..Typable(text)]) == Typable(text)
  {
    var part := text[..Typable(text)];
    assert forall i | 0 <= i < |part| :: part[i] == text[i];
  }

  lemma TypeTokenParses(text: string)
    ensures Parse("type:" + text) == Type(text)
  {
    var token := "type:" + text;
    assert token[0] == 't' && "sleep:"[0] == 's';
    assert token[5..] == text && token[..5] == "type:";
  }
}
