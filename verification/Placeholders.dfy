/** Which placeholder means what. */
module Placeholders {
  import opened Text
  import opened Actions

  datatype Row = Row(name: string, key: Key)

  /** The table of key placeholders. Some of its names are their own, one character each: their
      key is unknown and they type themselves. */
  const OWN_NAMES: string := "{}()[]+%^~#"

  /** The other names, by their first letter. */
  function RowsFrom(initial: char): seq<Row> {
    match initial
    case 'a' => [Row("add", Printable('+')), Row("apps", Named("Menu"))]
    case 'b' => [Row("backspace", Named("Backspace")), Row("bs", Named("Backspace")), Row("bksp", Named("Backspace")),
                 Row("break", Named("Pause"))]
    case 'c' => [Row("capslock", Named("CapsLock"))]
    case 'd' => [Row("down", Named("Down")), Row("delete", Named("Delete")), Row("del", Named("Delete")),
                 Row("divide", Printable('/'))]
    case 'e' => [Row("enter", Named("Enter")), Row("end", Named("End")), Row("esc", Named("Escape"))]
    case 'f' => [Row("f1", Named("F1")), Row("f2", Named("F2")), Row("f3", Named("F3")), Row("f4", Named("F4")),
                 Row("f5", Named("F5")), Row("f6", Named("F6")), Row("f7", Named("F7")), Row("f8", Named("F8")),
                 Row("f9", Named("F9")), Row("f10", Named("F10")), Row("f11", Named("F11")), Row("f12", Named("F12")),
                 Row("f13", Named("F13")), Row("f14", Named("F14")), Row("f15", Named("F15")), Row("f16", Named("F16"))]
    case 'h' => [Row("home", Named("Home")), Row("help", Named("Help"))]
    case 'i' => [Row("insert", Named("Insert")), Row("ins", Named("Insert"))]
    case 'l' => [Row("left", Named("Left")), Row("leftbrace", Printable('{')), Row("leftparen", Printable('(')),
                 Row("lwin", Named("Meta"))]
    case 'm' => [Row("multiply", Printable('*'))]
    case 'n' => [Row("numlock", Named("NumLock")),
                 Row("numpad0", Printable('0')), Row("numpad1", Printable('1')), Row("numpad2", Printable('2')),
                 Row("numpad3", Printable('3')), Row("numpad4", Printable('4')), Row("numpad5", Printable('5')),
                 Row("numpad6", Printable('6')), Row("numpad7", Printable('7')), Row("numpad8", Printable('8')),
                 Row("numpad9", Printable('9'))]
    case 'p' => [Row("pgup", Named("PageUp")), Row("pgdown", Named("PageDown")), Row("pgdn", Named("PageDown")),
                 Row("ptrsc", Named("Print"))]
    case 'r' => [Row("right", Named("Right")), Row("rightbrace", Printable('}')), Row("rightparen", Printable(')')),
                 Row("rwin", Named("Meta"))]
    case 's' => [Row("space", Printable(' ')), Row("subtract", Printable('-')),
                 Row("scrolllock", Named("ScrollLock"))]
    case 't' => [Row("tab", Named("Tab"))]
    case 'u' => [Row("up", Named("Up"))]
    case 'w' => [Row("win", Named("Meta"))]
    case _ => []
  }

  datatype Lookup = Absent | Present(key: Key)

  function Find(rows: seq<Row>, name: string): Lookup {
    if rows == [] then Absent
    else if rows[0].name == name then Present(rows[0].key)
    else Find(rows[1..], name)
  }

  function FindKey(name: string): Lookup {
    if name == [] then Absent
    else if |name| == 1 && name[0] in OWN_NAMES then Present(Unknown)
    else Find(RowsFrom(name[0]), name)
  }

  /** The branches of the compiler, in the order in which they are tried. */
  datatype Kind =
    | KeyPlaceholder(key: Key)
    | SetDelay
    | Wait
    | Clear
    | Totp
    | PickCharacters
    | Conversion
    | RegexReplacement
    | ModeSwitch
    | Ignored
    | Attribute

  /** The branch for a placeholder, given in lower case. */
  function Classify(placeholder: string): Kind {
    var row := FindKey(placeholder);
    if row.Present? then KeyPlaceholder(row.key)
    else if StartsWith(placeholder, "delay=") then SetDelay
    else if placeholder == "delay" then Wait
    else if placeholder == "clearfield" then Clear
    else if placeholder == "totp" || placeholder == "timeotp" then Totp
    else if StartsWith(placeholder, "pickchars") then PickCharacters
    else if StartsWith(placeholder, "t-conv:") then Conversion
    else if StartsWith(placeholder, "t-replace-rx:") then RegexReplacement
    else if StartsWith(placeholder, "mode=") then ModeSwitch
    else if StartsWith(placeholder, "beep") || StartsWith(placeholder, "vkey")
            || StartsWith(placeholder, "appactivate") || StartsWith(placeholder, "c:") then Ignored
    else Attribute
  }

  function ModifiersOf(s: string): Modifiers {
    Modifiers('+' in s, '^' in s, '%' in s, '#' in s)
  }
}
