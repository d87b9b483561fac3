/** What each placeholder of the documentation contributes to the list of actions, in terms of
    characters, keys and numbers. */
module Meaning {
  import opened Text
  import opened Actions
  import opened Placeholders
  import opened Pattern
  import opened Compiler
  import opened Numerals
  import KeyTable

  // ---------------------------------------------------------------------
  // Modifiers
  // ---------------------------------------------------------------------

  datatype Held = Shift | Control | Alt | Super

  function Sign(h: Held): char {
    match h
    case Shift => '+'
    case Control => '^'
    case Alt => '%'
    case Super => '#'
  }

  /** How keys to be held are written, in any order and as often as one likes. */
  function Signs(keys: seq<Held>): (s: string)
    ensures |s| == |keys|
  {
    seq(|keys|, i requires 0 <= i < |keys| => Sign(keys[i]))
  }

  function HeldBy(keys: seq<Held>): Modifiers {
    Modifiers(Shift in keys, Control in keys, Alt in keys, Super in keys)
  }

  lemma SignIn(keys: seq<Held>, h: Held)
    ensures Sign(h) in Signs(keys) <==> h in keys
  {
    if h in keys {
      var i :| 0 <= i < |keys| && keys[i] == h;
      assert Signs(keys)[i] == Sign(h);
    }
  }

  /** The keys that are written are the keys that are held. */
  lemma SignsAreHeld(keys: seq<Held>)
    ensures ModifiersOf(Signs(keys)) == HeldBy(keys)
  {
    SignIn(keys, Shift);
    SignIn(keys, Control);
    SignIn(keys, Alt);
    SignIn(keys, Super);
  }

  /** The pattern's modifiers are exactly what can be written like that. */
  lemma {:induction false} ModifiersAreSigns(s: string) returns (keys: seq<Held>)
    requires forall i :: 0 <= i < |s| ==> IsModifier(s[i])
    ensures s == Signs(keys)
  {
    if s == [] {
      keys := [];
    } else {
      var later := ModifiersAreSigns(s[1..]);
      var h := if s[0] == '+' then Shift else if s[0] == '^' then Control else if s[0] == '%' then Alt else Super;
      keys := [h] + later;
      assert s == [s[0]] + s[1..];
    }
  }

  lemma SignsAreModifiers(keys: seq<Held>)
    ensures forall i :: 0 <= i < |Signs(keys)| ==> IsModifier(Signs(keys)[i])
  {
  }

  /** A single character is typed with the keys that are written before it. */
  lemma CharacterMeans(keys: seq<Held>, c: char, i: nat, entry: Entry, host: Host, syntaxOnly: bool, elapsedMs: int)
    ensures MatchStep(TokenOf(Character(Signs(keys), c)), i, entry, host, syntaxOnly, elapsedMs)
         == Emit([Type(c, Unknown, HeldBy(keys))], 0)
  {
    SignsAreHeld(keys);
  }

  // ---------------------------------------------------------------------
  // Counts
  // ---------------------------------------------------------------------

  /** A count as it may be written: nothing, or a number with any leading zeros. */
  datatype Written = Nothing | Number(zeros: nat, value: nat)

  function Spelling(w: Written): string {
    match w
    case Nothing => []
    case Number(zeros, value) => Zeros(zeros) + Decimal(value)
  }

  /** The number that is taken for it: 1 for nothing, and 0 for what does not fit 32 bits. */
  function Worth(w: Written): nat {
    match w
    case Nothing => 1
    case Number(_, value) => if value <= 2147483647 then value else 0
  }

  lemma CountIsRead(m: Match, w: Written)
    requires m.Placeholder? && m.repeat == Spelling(w)
    ensures RepeatCount(m) == Worth(w)
  {
    match w {
      case Nothing =>
      case Number(zeros, value) =>
        NumeralIsRead("", "", zeros, value, "");
        assert Numeral("", "", zeros, value, "") == Zeros(zeros) + Decimal(value);
    }
  }

  /** Every string of digits is such a count. */
  lemma DigitsAreWritten(s: string) returns (w: Written)
    requires forall i :: 0 <= i < |s| ==> IsDigit(s[i])
    ensures s == Spelling(w)
  {
    if s == [] {
      w := Nothing;
    } else {
      var zeros, value := DigitsAreDecimal(s);
      w := Number(zeros, value);
    }
  }

  // ---------------------------------------------------------------------
  // Keys
  // ---------------------------------------------------------------------

  ghost predicate Copies(actions: seq<Action>, action: Action, n: nat) {
    |actions| == n && forall j :: 0 <= j < n ==> actions[j] == action
  }

  /** A key is pressed, with the keys written before it, as often as its count says; a count
      above 100 is an error, unless it does not even fit 32 bits. */
  lemma KeyMeans(keys: seq<Held>, full: string, inner: string, w: Written, key: Key,
                 i: nat, entry: Entry, host: Host, syntaxOnly: bool, elapsedMs: int)
    requires FindKey(Lower(inner)) == Present(key) && key != Unknown
    ensures var step := MatchStep(TokenOf(Placeholder(Signs(keys), full, inner, Spelling(w))),
                                  i, entry, host, syntaxOnly, elapsedMs);
            if Worth(w) > 100 then step == Stop(TooManyRepetitions(full))
            else step.Emit? && step.waited == 0 && Copies(step.segment, Type('\0', key, HeldBy(keys)), Worth(w))
  {
    SignsAreHeld(keys);
    CountIsRead(Placeholder(Signs(keys), full, inner, Spelling(w)), w);
  }

  /** The characters without a key type themselves, in the same way. */
  lemma OwnNameMeans(keys: seq<Held>, full: string, c: char, w: Written,
                     i: nat, entry: Entry, host: Host, syntaxOnly: bool, elapsedMs: int)
    requires c in "()[]+%^~#"
    ensures var step := MatchStep(TokenOf(Placeholder(Signs(keys), full, [c], Spelling(w))),
                                  i, entry, host, syntaxOnly, elapsedMs);
            if Worth(w) > 100 then step == Stop(TooManyRepetitions(full))
            else step.Emit? && step.waited == 0 && Copies(step.segment, Type(c, Unknown, HeldBy(keys)), Worth(w))
  {
    SignsAreHeld(keys);
    CountIsRead(Placeholder(Signs(keys), full, [c], Spelling(w)), w);
    OwnNameIsLower(c);
    KeyTable.OneCharacter(c);
  }

  lemma OwnNameIsLower(c: char)
    requires c in "()[]+%^~#"
    ensures LowerChar(c) == c && Lower([c]) == [c]
    ensures c == '(' || c == ')' || c == '[' || c == ']' || c == '+' || c == '%' || c == '^' || c == '~' || c == '#'
  {
  }

  // ---------------------------------------------------------------------
  // Delays and modes
  // ---------------------------------------------------------------------

  /** {DELAY n} waits n milliseconds, at most ten seconds. */
  lemma WaitMeans(modifiers: string, full: string, inner: string, w: Written,
                  i: nat, entry: Entry, host: Host, syntaxOnly: bool, elapsedMs: int)
    requires Lower(inner) == "delay"
    ensures MatchStep(TokenOf(Placeholder(modifiers, full, inner, Spelling(w))), i, entry, host, syntaxOnly, elapsedMs)
         == if Worth(w) > 10000 then Stop(LongDelay(full)) else Emit([Delay(Worth(w), false)], Worth(w))
  {
    KeyTable.DelayCommands(Lower(inner));
    CountIsRead(Placeholder(modifiers, full, inner, Spelling(w)), w);
  }

  /** The parts of a name, each behind "delay=". */
  function Marked(parts: seq<string>): string {
    if parts == [] then [] else "delay=" + (parts[0] + Marked(parts[1..]))
  }

  function Unmarked(parts: seq<string>): string {
    if parts == [] then [] else parts[0] + Unmarked(parts[1..])
  }

  ghost predicate FreeParts(parts: seq<string>) {
    forall part :: part in parts ==> !Occurs(part, "delay=")
  }

  /** A name that sets the delay, and the text that it is set to: what is left without "delay=",
      however often that comes. */
  ghost predicate SetsTo(name: string, value: string) {
    exists parts :: parts != [] && FreeParts(parts) && name == Marked(parts) && value == Unmarked(parts)
  }

  /** Mostly it comes once. */
  lemma SetsOnce(value: string)
    requires !Occurs(value, "delay=")
    ensures SetsTo("delay=" + value, value)
  {
    var parts := [value];
    assert parts[1..] == [];
    assert value + [] == value;
    assert FreeParts(parts) && Marked(parts) == "delay=" + value && Unmarked(parts) == value;
  }

  lemma ReplaceFront(pattern: string, rest: string, substitute: string)
    requires |pattern| > 0
    ensures ReplaceAll(pattern + rest, pattern, substitute) == substitute + ReplaceAll(rest, pattern, substitute)
  {
    assert (pattern + rest)[|pattern|..] == rest;
  }

  /** No occurrence begins in a free part: it would run into the next one. */
  lemma NoneBegins(part: string, rest: string)
    requires part != [] && !("delay=" <= part) && (rest == [] || rest[0] == 'd')
    ensures !("delay=" <= part + rest)
  {
    var s := part + rest;
    if |part| < 6 && rest != [] {
      assert s[|part|] == 'd';
    } else {
      assert s[..|part|] == part;
    }
  }

  lemma {:induction false} ReplacePart(part: string, rest: string)
    requires !Occurs(part, "delay=") && (rest == [] || rest[0] == 'd')
    ensures ReplaceAll(part + rest, "delay=", "") == part + ReplaceAll(rest, "delay=", "")
  {
    if part == [] {
      assert part + rest == rest;
    } else {
      OccursCons(part, "delay=");
      NoneBegins(part, rest);
      assert (part + rest)[1..] == part[1..] + rest;
      ReplacePart(part[1..], rest);
      Regroup([part[0]], part[1..], ReplaceAll(rest, "delay=", ""));
      assert part == [part[0]] + part[1..];
    }
  }

  lemma {:induction false} UnmarkedIsLeft(parts: seq<string>)
    requires FreeParts(parts)
    ensures ReplaceAll(Marked(parts), "delay=", "") == Unmarked(parts)
  {
    if parts != [] {
      UnmarkedIsLeft(parts[1..]);
      MarkedBegins(parts[1..]);
      ReplacePart(parts[0], Marked(parts[1..]));
      ReplaceFront("delay=", parts[0] + Marked(parts[1..]), "");
    }
  }

  lemma MarkedBegins(parts: seq<string>)
    ensures parts != [] ==> "delay=" <= Marked(parts) && Marked(parts)[0] == 'd'
  {
  }

  lemma ValueOfDelay(name: string, value: string)
    requires SetsTo(name, value)
    ensures "delay=" <= name && ReplaceAll(name, "delay=", "") == value
  {
    var parts :| parts != [] && FreeParts(parts) && name == Marked(parts) && value == Unmarked(parts);
    UnmarkedIsLeft(parts);
    MarkedBegins(parts);
  }

  /** Every text is a free part and marked ones. */
  lemma {:induction false} PartsOf(s: string) returns (first: string, parts: seq<string>)
    ensures s == first + Marked(parts) && !Occurs(first, "delay=") && FreeParts(parts)
    decreases |s|
  {
    if s == [] {
      first, parts := [], [];
    } else if "delay=" <= s {
      var later: string;
      later, parts := PartsOf(s[6..]);
      assert s == "delay=" + s[6..];
      first, parts := [], [later] + parts;
      assert parts[1..] == parts[1..] && s == [] + Marked(parts);
    } else {
      first, parts := PartsOf(s[1..]);
      ExtendFree(s, first, parts);
      first := [s[0]] + first;
    }
  }

  lemma ExtendFree(s: string, first: string, parts: seq<string>)
    requires s != [] && !("delay=" <= s) && s[1..] == first + Marked(parts) && !Occurs(first, "delay=")
    ensures s == [s[0]] + first + Marked(parts) && !Occurs([s[0]] + first, "delay=")
  {
    var longer := [s[0]] + first;
    assert s == [s[0]] + s[1..];
    Regroup([s[0]], first, Marked(parts));
    assert longer[1..] == first;
    assert s[..|longer|] == longer;
    OccursCons(longer, "delay=");
  }

  /** Whatever begins with "delay=" sets the delay. */
  lemma DelayIsSet(name: string) returns (value: string)
    requires "delay=" <= name
    ensures SetsTo(name, value)
  {
    var first, parts := PartsOf(name[6..]);
    var all := [first] + parts;
    assert all[1..] == parts;
    assert name == "delay=" + name[6..];
    value := Unmarked(all);
    assert FreeParts(all) && name == Marked(all);
  }

  /** {DELAY=n} sets the delay between keys to n milliseconds, at most half a second; a
      negative number sets it to 0, and so does one that does not fit 32 bits. */
  lemma SetDelayMeans(modifiers: string, full: string, inner: string, repeat: string,
                      before: string, sign: string, zeros: nat, n: nat, after: string,
                      i: nat, entry: Entry, host: Host, syntaxOnly: bool, elapsedMs: int)
    requires AllSpaces(before) && AllSpaces(after) && (sign == "" || sign == "+" || sign == "-")
    requires SetsTo(Lower(inner), Numeral(before, sign, zeros, n, after))
    ensures MatchStep(TokenOf(Placeholder(modifiers, full, inner, repeat)), i, entry, host, syntaxOnly, elapsedMs)
         == if sign == "-" || n > 2147483647 then Emit([Delay(0, true)], 0)
            else if n > 500 then Stop(SlowKeyPress(full))
            else Emit([Delay(n, true)], 0)
  {
    ValueOfDelay(Lower(inner), Numeral(before, sign, zeros, n, after));
    KeyTable.DelayCommands(Lower(inner));
    NumeralIsRead(before, sign, zeros, n, after);
  }

  ghost predicate IsNumeral(s: string) {
    exists before, sign, zeros: nat, n: nat, after ::
      && AllSpaces(before) && AllSpaces(after) && (sign == "" || sign == "+" || sign == "-")
      && s == Numeral(before, sign, zeros, n, after)
  }

  /** Anything else sets it to 0. */
  lemma OtherDelayMeans(modifiers: string, full: string, inner: string, repeat: string, value: string,
                        i: nat, entry: Entry, host: Host, syntaxOnly: bool, elapsedMs: int)
    requires SetsTo(Lower(inner), value) && !IsNumeral(value)
    ensures MatchStep(TokenOf(Placeholder(modifiers, full, inner, repeat)), i, entry, host, syntaxOnly, elapsedMs)
         == Emit([Delay(0, true)], 0)
  {
    ValueOfDelay(Lower(inner), value);
    KeyTable.DelayCommands(Lower(inner));
    OthersAreZero(value);
  }

  lemma OthersAreZero(value: string)
    ensures !IsNumeral(value) ==> ToInt(value) == 0
  {
    if ToInt(value) != 0 {
      var before, sign, zeros, n, after := OnlyNumeralsAreRead(value);
      assert IsNumeral(value);
    }
  }

  lemma EndsWithIff(s: string, suffix: string)
    ensures EndsWith(s, suffix) <==> exists x :: s == x + suffix
  {
    if EndsWith(s, suffix) {
      assert s == s[..|s| - |suffix|] + suffix;
    }
  }

  ghost predicate NamesVirtual(name: string) {
    exists x :: name == x + "virtual"
  }

  /** {MODE=..} sets the mode: virtual for a name that ends in that word, and normal otherwise. */
  lemma ModeMeans(modifiers: string, full: string, inner: string, repeat: string,
                  i: nat, entry: Entry, host: Host, syntaxOnly: bool, elapsedMs: int)
    requires "mode=" <= Lower(inner)
    ensures MatchStep(TokenOf(Placeholder(modifiers, full, inner, repeat)), i, entry, host, syntaxOnly, elapsedMs)
         == Emit([SetMode(if NamesVirtual(Lower(inner)) then Virtual else Normal)], 0)
  {
    KeyTable.ModeCommand(Lower(inner));
    EndsWithIff(Lower(inner), "virtual");
  }

  lemma ClearFieldMeans(modifiers: string, full: string, inner: string, repeat: string,
                        i: nat, entry: Entry, host: Host, syntaxOnly: bool, elapsedMs: int)
    requires Lower(inner) == "clearfield"
    ensures MatchStep(TokenOf(Placeholder(modifiers, full, inner, repeat)), i, entry, host, syntaxOnly, elapsedMs)
         == Emit([ClearField], 0)
  {
    KeyTable.ClearFieldCommand();
  }

  /** The commands that are left out of the list. */
  lemma IgnoredMeans(modifiers: string, full: string, inner: string, repeat: string,
                     i: nat, entry: Entry, host: Host, syntaxOnly: bool, elapsedMs: int)
    requires var name := Lower(inner); "beep" <= name || "vkey" <= name || "c:" <= name || "appactivate" <= name
    ensures MatchStep(TokenOf(Placeholder(modifiers, full, inner, repeat)), i, entry, host, syntaxOnly, elapsedMs)
         == Emit([], 0)
  {
    KeyTable.IgnoredCommands(Lower(inner));
  }

  // ---------------------------------------------------------------------
  // Text from elsewhere
  // ---------------------------------------------------------------------

  /** One key per character, without modifiers. */
  ghost predicate TypesText(step: Step, text: string) {
    && step.Emit? && step.waited == 0 && |step.segment| == |text|
    && forall j :: 0 <= j < |text| ==>
         step.segment[j] == Type(text[j], Unknown, Modifiers(false, false, false, false))
  }

  /** The same, with enter for a line break and tab for a tab. */
  ghost predicate TypesLines(step: Step, text: string) {
    && step.Emit? && step.waited == 0 && |step.segment| == |text|
    && forall j :: 0 <= j < |text| ==>
         step.segment[j] == if text[j] == '\n' then Type('\0', Named("Enter"), Modifiers(false, false, false, false))
                            else if text[j] == '\t' then Type('\0', Named("Tab"), Modifiers(false, false, false, false))
                            else Type(text[j], Unknown, Modifiers(false, false, false, false))
  }

  /** A tab between any two characters. */
  ghost predicate TypesTabbed(step: Step, text: string)
    requires text != []
  {
    && step.Emit? && step.waited == 0 && |step.segment| == 2 * |text| - 1
    && (forall j :: 0 <= j < |text| ==>
          step.segment[2 * j] == Type(text[j], Unknown, Modifiers(false, false, false, false)))
    && (forall j :: 0 <= j < |text| - 1 ==>
          step.segment[2 * j + 1] == Type('\0', Named("Tab"), Modifiers(false, false, false, false)))
  }

  /** {TOTP} types the digits of the time that has passed by then. */
  lemma TotpMeans(modifiers: string, full: string, inner: string, repeat: string,
                  i: nat, entry: Entry, host: Host, syntaxOnly: bool, elapsedMs: int)
    requires Lower(inner) == "totp" || Lower(inner) == "timeotp"
    ensures var step := MatchStep(TokenOf(Placeholder(modifiers, full, inner, repeat)),
                                  i, entry, host, syntaxOnly, elapsedMs);
            if entry.hasValidTotp then TypesText(step, entry.totpAt(host.now(i) + elapsedMs / 1000))
            else step == if entry.hasTotp then Stop(InvalidTotp) else Emit([], 0)
  {
    KeyTable.TotpCommands();
  }

  /** {T-CONV:..} and {T-REPLACE-RX:..} type what their resolver answers, or stop with its message. */
  lemma ConversionMeans(modifiers: string, full: string, inner: string, repeat: string,
                        i: nat, entry: Entry, host: Host, syntaxOnly: bool, elapsedMs: int)
    requires "t-conv:" <= Lower(inner) || "t-replace-rx:" <= Lower(inner)
    ensures var step := MatchStep(TokenOf(Placeholder(modifiers, full, inner, repeat)),
                                  i, entry, host, syntaxOnly, elapsedMs);
            var (text, message) := if "t-conv:" <= Lower(inner) then host.resolvers(i).convert(inner)
                                   else host.resolvers(i).replace(inner);
            if message == "" then TypesText(step, text) else step == Stop(ResolverError(message))
  {
    KeyTable.ConversionCommands(Lower(inner));
  }

  /** Any other name is that of a field, which is typed line by line; one that is not resolved is
      an error. */
  lemma FieldMeans(modifiers: string, full: string, inner: string, repeat: string,
                   i: nat, entry: Entry, host: Host, syntaxOnly: bool, elapsedMs: int)
    requires FindKey(Lower(inner)) == Absent && !KeyTable.Command(Lower(inner))
    ensures var step := MatchStep(TokenOf(Placeholder(modifiers, full, inner, repeat)),
                                  i, entry, host, syntaxOnly, elapsedMs);
            var text := host.resolvers(i).resolve(full);
            if text == full then step == Stop(InvalidPlaceholder(full)) else TypesLines(step, text)
  {
    KeyTable.OtherNames(Lower(inner));
  }

  // Picked characters.

  lemma {:induction false} AfterFirstIs(head: string, c: char, rest: string)
    requires c !in head
    ensures AfterFirst(head + [c] + rest, c) == rest
  {
    var s := head + [c] + rest;
    if head == [] {
      assert s[1..] == rest;
    } else {
      assert s[0] == head[0] && s[1..] == head[1..] + [c] + rest;
      AfterFirstIs(head[1..], c, rest);
    }
  }

  /** The attribute to pick from stands behind the first colon; without a colon it is the password. */
  ghost predicate PicksFrom(inner: string, attribute: string) {
    || (':' !in inner && attribute == "Password")
    || exists head :: ':' !in head && inner == head + ":" + attribute
  }

  lemma PickedAttribute(inner: string, attribute: string)
    requires PicksFrom(inner, attribute)
    ensures attribute == if ':' in inner then AfterFirst(inner, ':') else "Password"
  {
    if exists head :: ':' !in head && inner == head + ":" + attribute {
      var head :| ':' !in head && inner == head + ":" + attribute;
      assert inner[|head|] == ':';
      AfterFirstIs(head, ':', attribute);
    }
  }

  ghost predicate TypesPick(step: Step, pick: Pick) {
    match pick
    case Cancelled => step == Emit([], 0)
    case Accepted(chars, pressTab) =>
      if pressTab && chars != [] then TypesTabbed(step, chars) else TypesText(step, chars)
  }

  lemma PickedAt(chars: string, j: nat)
    requires j < |chars|
    ensures Picked(chars, true)[2 * j] == Type(chars[j], Unknown, NO_MODIFIERS)
    ensures j < |chars| - 1 ==> Picked(chars, true)[2 * j + 1] == Type('\0', Named("Tab"), NO_MODIFIERS)
  {
    assert 2 * j / 2 == j && 2 * j % 2 == 0 && (2 * j + 1) % 2 == 1;
  }

  lemma PickedIsTabbed(chars: string)
    requires chars != []
    ensures TypesTabbed(Emit(Picked(chars, true), 0), chars)
  {
    forall j | 0 <= j < |chars|
      ensures Picked(chars, true)[2 * j] == Type(chars[j], Unknown, NO_MODIFIERS)
      ensures j < |chars| - 1 ==> Picked(chars, true)[2 * j + 1] == Type('\0', Named("Tab"), NO_MODIFIERS)
    {
      PickedAt(chars, j);
    }
  }

  /** {PICKCHARS} asks the user, unless only the syntax is checked or there is nothing to pick
      from, and types what is picked. Naming an attribute that is missing is an error. */
  lemma PickMeans(modifiers: string, full: string, inner: string, repeat: string, attribute: string,
                  i: nat, entry: Entry, host: Host, syntaxOnly: bool, elapsedMs: int)
    requires "pickchars" <= Lower(inner) && PicksFrom(inner, attribute)
    ensures var step := MatchStep(TokenOf(Placeholder(modifiers, full, inner, repeat)),
                                  i, entry, host, syntaxOnly, elapsedMs);
            var value := if attribute in entry.attributes then entry.attributes[attribute] else "";
            if ':' in inner && attribute !in entry.attributes then step == Stop(MissingAttribute(attribute))
            else if syntaxOnly || host.resolvers(i).resolve(value) == "" then step == Emit([], 0)
            else TypesPick(step, host.pick(i))
  {
    KeyTable.PickCommand(Lower(inner));
    PickedAttribute(inner, attribute);
    var pick := host.pick(i);
    if pick.Accepted? && pick.chars != [] {
      PickedIsTabbed(pick.chars);
    }
  }

  // ---------------------------------------------------------------------
  // Case
  // ---------------------------------------------------------------------

  /** Names are not case sensitive: lower-casing takes each capital letter to its small one and
      leaves every other character alone. */
  lemma LowerIs(s: string, j: nat)
    requires j < |s|
    ensures forall k :: 0 <= k < 26 && s[j] == "ABCDEFGHIJKLMNOPQRSTUVWXYZ"[k] ==>
              Lower(s)[j] == "abcdefghijklmnopqrstuvwxyz"[k]
    ensures s[j] !in "ABCDEFGHIJKLMNOPQRSTUVWXYZ" ==> Lower(s)[j] == s[j]
  {
    CapitalIs(s[j]);
  }

  lemma CapitalIs(c: char)
    ensures 'A' <= c <= 'Z' ==> "ABCDEFGHIJKLMNOPQRSTUVWXYZ"[c as int - 65] == c
    ensures forall k :: 0 <= k < 26 && c == "ABCDEFGHIJKLMNOPQRSTUVWXYZ"[k] ==>
              LowerChar(c) == "abcdefghijklmnopqrstuvwxyz"[k]
  {
  }
}
