/**
 * ANSI styling of status messages. Whether colour is on is computed once per
 * process from the environment and the terminal; here it is an explicit
 * `enabled` argument, produced by `ColorEnabled`.
 */
module Term {
  import opened Files

  const Reset: string := "\U{1b}[0m"
  const BoldCode: string := "\U{1b}[1m"

  /** The escape table: `ANSI.get(name)`. It holds the seven colours and
      also the two attribute names "reset" and "bold". */
  function Ansi(name: string): (code: Option<string>)
    ensures code.Some? ==> |code.value| >= 4 && code.value[0] == '\U{1b}' && code.value[1] == '['
    ensures code.Some? ==> (code.value[2] == '1' <==> name == "bold")
    ensures name == "bold" ==> code == Some(BoldCode)
  {
    if name == "reset" then Some(Reset)
    else if name == "bold" then Some(BoldCode)
    else if name == "red" then Some("\U{1b}[31m")
    else if name == "green" then Some("\U{1b}[32m")
    else if name == "yellow" then Some("\U{1b}[33m")
    else if name == "blue" then Some("\U{1b}[34m")
    else if name == "magenta" then Some("\U{1b}[35m")
    else if name == "cyan" then Some("\U{1b}[36m")
    else if name == "grey" then Some("\U{1b}[90m")
    else None
  }

  /** What `sys.stdout.isatty()` did: answered yes, answered no, or raised. */
  datatype TtyProbe = Tty | NotTty | ProbeRaised

  /** `_enabled()`: off whenever NO_COLOR is set (whatever the terminal),
      otherwise on exactly when the probe answered yes; a probe that raised
      counts as no. */
  function ColorEnabled(noColorSet: bool, probe: TtyProbe): (on: bool)
    ensures noColorSet ==> !on
    ensures !noColorSet ==> (on <==> probe == Tty)
  {
    if noColorSet then false
    else match probe
      case Tty => true
      case NotTty => false
      case ProbeRaised => false
  }

  /** The escape sequence placed before the text: the bold code when asked
      for, then the colour's code, or nothing for a name not in the table. */
  function Lead(color: string, bold: bool): (lead: string)
    ensures Ansi(color).None? ==> lead == (if bold then BoldCode else "")
    ensures Ansi(color).Some? ==> lead == (if bold then BoldCode else "") + Ansi(color).value
  {
    var b := if bold then BoldCode else "";
    var c := match Ansi(color) case Some(code) => code case None => "";
    b + c
  }

  /** `stylize`: the text unchanged when colour is off or no colour name is
      given (None or the empty name); otherwise the lead, the text intact,
      and the reset code. */
  function Stylize(enabled: bool, text: string, color: Option<string>, bold: bool): (r: string)
    ensures !enabled || color == None || color == Some("") ==> r == text
    ensures enabled && color.Some? && color.value != "" ==>
              var lead := Lead(color.value, bold);
              |r| == |lead| + |text| + |Reset| &&
              r[..|lead|] == lead &&
              r[|lead|..|lead| + |text|] == text &&
              r[|lead| + |text|..] == Reset
  {
    if !enabled || color.None? || color.value == "" then text
    else Lead(color.value, bold) + text + Reset
  }

  /** `text` occurs in `r` starting at position `i`. */
  predicate OccursAt(text: string, r: string, i: int)
  {
    0 <= i <= |r| - |text| && r[i..i + |text|] == text
  }

  /** The text always survives as one contiguous piece of the result. */
  lemma StylizeKeepsText(enabled: bool, text: string, color: Option<string>, bold: bool)
    ensures exists i :: OccursAt(text, Stylize(enabled, text, color, bold), i)
  {
    var r := Stylize(enabled, text, color, bold);
    if !enabled || color.None? || color.value == "" {
      assert OccursAt(text, r, 0);
    } else {
      assert OccursAt(text, r, |Lead(color.value, bold)|);
    }
  }

  /** With colour on, the styled result begins with the bold code exactly
      when bold was asked for or the colour name is "bold" itself. */
  lemma LeadIsBoldIff(color: string, bold: bool)
    requires color != ""
    ensures var lead := Lead(color, bold);
            (|lead| >= |BoldCode| && lead[..|BoldCode|] == BoldCode) <==> bold || color == "bold"
  {
    var lead := Lead(color, bold);
    if bold {
      assert lead[..|BoldCode|] == BoldCode;
    } else if color == "bold" {
      assert lead == BoldCode;
    } else if |lead| >= |BoldCode| {
      assert lead == Ansi(color).value;
      assert lead[2] != BoldCode[2];
    }
  }

  function Header(enabled: bool, text: string): string { Stylize(enabled, text, Some("cyan"), true) }
  function Action(enabled: bool, text: string): string { Stylize(enabled, text, Some("green"), false) }
  function Note(enabled: bool, text: string): string { Stylize(enabled, text, Some("yellow"), false) }
  function Warn(enabled: bool, text: string): string { Stylize(enabled, text, Some("red"), false) }
  function Meta(enabled: bool, text: string): string { Stylize(enabled, text, Some("grey"), false) }

  /** The five message kinds and their fixed styles: header is bold cyan,
      action green, note yellow, warning red, metadata grey. */
  lemma HeaderStyle(enabled: bool, text: string)
    ensures Header(enabled, text) == if enabled then BoldCode + "\U{1b}[36m" + text + Reset else text
  {
    assert Lead("cyan", true) == BoldCode + "\U{1b}[36m";
  }

  lemma ActionStyle(enabled: bool, text: string)
    ensures Action(enabled, text) == if enabled then "\U{1b}[32m" + text + Reset else text
  {
    assert Lead("green", false) == "\U{1b}[32m";
  }

  lemma NoteStyle(enabled: bool, text: string)
    ensures Note(enabled, text) == if enabled then "\U{1b}[33m" + text + Reset else text
  {
    assert Lead("yellow", false) == "\U{1b}[33m";
  }

  lemma WarnStyle(enabled: bool, text: string)
    ensures Warn(enabled, text) == if enabled then "\U{1b}[31m" + text + Reset else text
  {
    assert Lead("red", false) == "\U{1b}[31m";
  }

  lemma MetaStyle(enabled: bool, text: string)
    ensures Meta(enabled, text) == if enabled then "\U{1b}[90m" + text + Reset else text
  {
    assert Lead("grey", false) == "\U{1b}[90m";
  }
}
