/** The key names the popups' `handleChar` methods receive: a single
    character for an ordinary key, or a name such as "ENTER" or "UP". */
module Keys {

  /** The keys the popups tell apart.  BACKSPACE and ^H are one key, DEL
      and DC another, ESC and ^C a third; NPAGE and PPAGE page the text. */
  datatype Key =
    | Enter | Cancel | Up | Down | Left | Right | Backspace | Del | PageDown | PageUp
    | Char(ch: char) | Other

  /** The tests on the key name, in the order the popups make them: the
      key names, then any single character, then anything else. */
  function KeyOf(c: string): Key
  {
    if c == "ENTER" then Enter
    else if c == "ESC" || c == "^C" then Cancel
    else if c == "UP" then Up
    else if c == "DOWN" then Down
    else if c == "LEFT" then Left
    else if c == "RIGHT" then Right
    else if c == "BACKSPACE" || c == "^H" then Backspace
    else if c == "DEL" || c == "DC" then Del
    else if c == "NPAGE" then PageDown
    else if c == "PPAGE" then PageUp
    else if |c| == 1 then Char(c[0])
    else Other
  }

  /** The key names. */
  function KeyNames(): set<string>
  {
    {"ENTER", "ESC", "^C", "UP", "DOWN", "LEFT", "RIGHT", "BACKSPACE", "^H", "DEL", "DC", "NPAGE", "PPAGE"}
  }

  /** A single character is always an ordinary character (every key name
      is longer), and exactly the strings that are neither a key name nor
      one character are `Other`. */
  lemma KeyOfChar(c: string)
    ensures |c| == 1 <==> KeyOf(c).Char?
    ensures KeyOf(c).Char? ==> KeyOf(c).ch == c[0]
    ensures KeyOf(c) == Other <==> |c| != 1 && c !in KeyNames()
  {
  }

  /** What a popup's done handler is given: nothing (it is not called), the
      accepted value, or `None` for a cancellation. */
  datatype Handover<T> = NoHandover | Accepted(value: T) | Cancelled
}
