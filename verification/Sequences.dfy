/** Sequences that are written from their matches, and what they compile to. */
module Sequences {
  import opened Text
  import opened Actions
  import opened Placeholders
  import opened Pattern
  import opened Nesting
  import opened Tokens
  import opened Printing
  import opened Escapes
  import opened Compiler
  import opened Verdicts
  import opened Meaning
  import opened Numerals
  import KeyTable

  // ---------------------------------------------------------------------
  // Rewriting and counting leave written matches alone
  // ---------------------------------------------------------------------

  /** A match that can be written, and whose braces count. */
  ghost predicate Writable(m: Match) {
    Canonical(m) && (m.Character? ==> m.character != '}')
  }

  lemma EscapeHasPair(s: string)
    ensures Occurs(s, "{{}") ==> HasEmptyPair(s)
    ensures Occurs(s, "{}}") ==> HasEmptyPair(s)
  {
    if Occurs(s, "{{}") {
      var i :| OccursAt(s, "{{}", i);
      assert s[i..i + 3][1] == '{' && s[i..i + 3][2] == '}';
      assert EmptyPairAt(s, i + 1);
    }
    if Occurs(s, "{}}") {
      var i :| OccursAt(s, "{}}", i);
      assert s[i..i + 3][0] == '{' && s[i..i + 3][1] == '}';
      assert EmptyPairAt(s, i);
    }
  }

  lemma NoPairNoEscape(s: string)
    requires !HasEmptyPair(s)
    ensures Rewrite(s) == s
  {
    EscapeHasPair(s);
    ReplaceNothing(s, LEFT_ESCAPE, LEFT_NAME);
    ReplaceNothing(s, RIGHT_ESCAPE, RIGHT_NAME);
  }

  lemma {:induction false} ClosedExcess(s: string, depth: nat)
    requires depth > 0 && Close(s, depth) == ClosedAfter(|s|)
    ensures Excess(s) + depth == 0
  {
    if s[0] == '}' && depth == 1 {
      assert s[1..] == [];
    } else {
      ClosedExcess(s[1..], if s[0] == '{' then depth + 1 else if s[0] == '}' then depth - 1 else depth);
    }
  }

  lemma GroupExcess(full: string)
    requires CounterGroup(full, |full|)
    ensures Excess(full) == 0 && !HasEmptyPair(full) && full[|full| - 1] == '}'
  {
    ClosedExcess(full[1..], 1);
    ExcessConcat("{", full[1..]);
    assert full == "{" + full[1..] && full[..|full|] == full;
    CloseEndsInBrace(full[1..], 1);
  }

  lemma {:induction false} NoBraceExcess(s: string)
    requires forall i :: 0 <= i < |s| ==> !IsBrace(s[i])
    ensures Excess(s) == 0 && !HasEmptyPair(s)
  {
    if s != [] {
      NoBraceExcess(s[1..]);
    }
  }

  lemma WritableText(m: Match)
    requires Writable(m)
    ensures var t := m.Text(); Excess(t) == 0 && !HasEmptyPair(t) && t != [] && t[|t| - 1] != '{'
  {
    NoBraceExcess(m.modifiers);
    match m {
      case Character(modifiers, c) =>
        NoBraceExcess(modifiers + [c]);
      case Placeholder(modifiers, full, _, _) =>
        GroupExcess(full);
        ExcessConcat(modifiers, full);
        EmptyPairConcat(modifiers, full);
    }
  }

  lemma WritableFront(m: Match, rest: string)
    requires Writable(m) && Excess(rest) == 0 && !HasEmptyPair(rest)
    ensures Excess(m.Text() + rest) == 0 && !HasEmptyPair(m.Text() + rest)
  {
    WritableText(m);
    ExcessConcat(m.Text(), rest);
    EmptyPairConcat(m.Text(), rest);
  }

  lemma {:induction false} WritableTexts(ms: seq<Match>)
    requires forall m :: m in ms ==> Writable(m)
    ensures Excess(Texts(ms)) == 0 && !HasEmptyPair(Texts(ms))
  {
    if ms != [] {
      WritableTexts(ms[1..]);
      WritableFront(ms[0], Texts(ms[1..]));
    }
  }

  /** A sequence that is written from matches is read as these matches, with no escape in it and
      with its braces in balance. */
  lemma WrittenIsRead(ms: seq<Match>)
    requires forall m :: m in ms ==> Writable(m)
    ensures TokensOf(Texts(ms)) == Tokenize(ms) && BracesCount(Rewrite(Texts(ms)))
  {
    WritableTexts(ms);
    NoPairNoEscape(Texts(ms));
    ScanTexts(ms);
  }

  // ---------------------------------------------------------------------
  // The language of sequences
  // ---------------------------------------------------------------------

  /** What a name in braces is meant for. */
  datatype Sense =
    | Press
    | Pause
    | Pace(before: string, sign: string, zeros: nat, value: nat, after: string)
    | NoPace(text: string)
    | Wipe
    | Switch(mode: Mode)
    | Digits
    | PickFrom(attribute: string)
    | Convert
    | Replace
    | Field
    | Skip

  /** A character or a placeholder, with the keys held for it. A placeholder has a name, white
      space, and a count, whatever it is meant for. */
  datatype Piece =
    | Char(keys: seq<Held>, c: char)
    | Braced(keys: seq<Held>, name: string, spaces: string, count: Written, sense: Sense)

  /** The names of a sense. */
  ghost predicate Fits(name: string, sense: Sense) {
    var small := Lower(name);
    match sense
    case Press => FindKey(small).Present?
    case Pause => small == "delay"
    case Pace(before, sign, zeros, value, after) =>
      && Numerals.AllSpaces(before) && Numerals.AllSpaces(after) && (sign == "" || sign == "+" || sign == "-")
      && SetsTo(small, Numeral(before, sign, zeros, value, after))
    case NoPace(text) => SetsTo(small, text) && !IsNumeral(text)
    case Wipe => small == "clearfield"
    case Switch(mode) => "mode=" <= small && (mode.Virtual? <==> NamesVirtual(small))
    case Digits => small == "totp" || small == "timeotp"
    case PickFrom(attribute) => "pickchars" <= small && PicksFrom(name, attribute)
    case Convert => "t-conv:" <= small
    case Replace => "t-replace-rx:" <= small
    case Field => FindKey(small) == Absent && !KeyTable.Command(small)
    case Skip => "beep" <= small || "vkey" <= small || "c:" <= small || "appactivate" <= small
  }

  /** A placeholder that is read as it is written, and used in one of its senses. */
  ghost predicate Sensible(p: Piece) {
    match p
    case Char(_, _) => true
    case Braced(_, name, spaces, count, sense) =>
      Readable(name, Spelling(count)) && Separates(spaces, Spelling(count)) && Fits(name, sense)
  }

  /** No character that is read as something else, or not at all. */
  predicate PlainChar(p: Piece) {
    p.Char? ==> p.c !in "+^%#{}\n"
  }

  function Braces(p: Piece): string
    requires p.Braced?
  {
    PrintSpaced(p.name, p.spaces, Spelling(p.count))
  }

  /** How a piece is written. Names may have capital letters, and counts leading zeros. */
  function Write(p: Piece): string {
    Signs(p.keys) + if p.Char? then [p.c] else Braces(p)
  }

  function WriteAll(ps: seq<Piece>): string {
    if ps == [] then [] else Write(ps[0]) + WriteAll(ps[1..])
  }

  /** What a piece says as the i-th of its sequence and so many milliseconds after its start:
      actions, or an error. */
  ghost function Says(p: Piece, i: nat, entry: Entry, host: Host, syntaxOnly: bool, elapsedMs: int): Step
    requires Sensible(p)
  {
    match p
    case Char(keys, c) => Emit([Type(c, Unknown, HeldBy(keys))], 0)
    case Braced(keys, name, _, count, sense) =>
      match sense
      case Press =>
        if Worth(count) > 100 then Stop(TooManyRepetitions(Braces(p)))
        else Emit(Repeated(Stroke(name, FindKey(Lower(name)).key, HeldBy(keys)), Worth(count)), 0)
      case Pause =>
        if Worth(count) > 10000 then Stop(LongDelay(Braces(p))) else Emit([Delay(Worth(count), false)], Worth(count))
      case Pace(_, sign, _, value, _) =>
        if sign == "-" || value > 2147483647 then Emit([Delay(0, true)], 0)
        else if value > 500 then Stop(SlowKeyPress(Braces(p)))
        else Emit([Delay(value, true)], 0)
      case NoPace(_) => Emit([Delay(0, true)], 0)
      case Wipe => Emit([ClearField], 0)
      case Switch(mode) => Emit([SetMode(mode)], 0)
      case Digits => SaysDigits(i, entry, host, elapsedMs)
      case PickFrom(attribute) => SaysPicked(name, attribute, i, entry, host, syntaxOnly)
      case Convert => SaysAnswer(host.resolvers(i).convert(name))
      case Replace => SaysAnswer(host.resolvers(i).replace(name))
      case Field =>
        var text := host.resolvers(i).resolve(Braces(p));
        if text == Braces(p) then Stop(InvalidPlaceholder(Braces(p))) else Emit(Resolved(text), 0)
      case Skip => Emit([], 0)
  }

  function Stroke(name: string, key: Key, held: Modifiers): Action {
    if key.Unknown? && name != [] then Type(name[0], Unknown, held) else Type('\0', key, held)
  }

  function SaysDigits(i: nat, entry: Entry, host: Host, elapsedMs: int): Step {
    if entry.hasValidTotp then Emit(Typed(entry.totpAt(host.now(i) + elapsedMs / 1000)), 0)
    else if entry.hasTotp then Stop(InvalidTotp)
    else Emit([], 0)
  }

  function SaysAnswer(answer: (string, string)): Step {
    if answer.1 == "" then Emit(Typed(answer.0), 0) else Stop(ResolverError(answer.1))
  }

  function SaysPicked(name: string, attribute: string, i: nat, entry: Entry, host: Host, syntaxOnly: bool): Step {
    var value := if attribute in entry.attributes then entry.attributes[attribute] else "";
    if ':' in name && attribute !in entry.attributes then Stop(MissingAttribute(attribute))
    else if syntaxOnly || host.resolvers(i).resolve(value) == "" || host.pick(i).Cancelled? then Emit([], 0)
    else Emit(Picked(host.pick(i).chars, host.pick(i).pressTab), 0)
  }

  /** What the pieces from the i-th one on say, one behind the other, up to the first error. So far
      there are some actions, and a waiting time; typing takes so long for each action. */
  ghost function SayAll(ps: seq<Piece>, i: nat, entry: Entry, host: Host, syntaxOnly: bool,
                        before: seq<Action>, waited: int, typing: int): Outcome
    requires i <= |ps| && forall p :: p in ps ==> Sensible(p)
    decreases |ps| - i
  {
    if i == |ps| then Parsed(before)
    else
      match Says(ps[i], i, entry, host, syntaxOnly, waited + typing * |before|)
      case Stop(error) => Rejected(error)
      case Emit(segment, more) =>
        SayAll(ps, i + 1, entry, host, syntaxOnly, before + segment, waited + more, typing)
  }

  // ---------------------------------------------------------------------
  // Pieces are read as they are written
  // ---------------------------------------------------------------------

  /** The match that a piece is read as. */
  function ReadAs(p: Piece): Match {
    match p
    case Char(keys, c) => Character(Signs(keys), c)
    case Braced(keys, name, _, count, _) => Placeholder(Signs(keys), Braces(p), name, Spelling(count))
  }

  function ReadAll(ps: seq<Piece>): seq<Match> {
    seq(|ps|, i requires 0 <= i < |ps| => ReadAs(ps[i]))
  }

  lemma ReadAllCons(p: Piece, later: seq<Piece>)
    ensures ReadAll([p] + later) == [ReadAs(p)] + ReadAll(later)
  {
  }

  lemma PieceIsWritable(p: Piece)
    requires Sensible(p) && PlainChar(p)
    ensures Writable(ReadAs(p))
  {
    SignsAreModifiers(p.keys);
    match p {
      case Char(_, c) => PlainCharacter(c);
      case Braced(_, name, spaces, count, _) => SpacedIsCanonicalIff(name, spaces, Spelling(count));
    }
  }

  lemma PlainCharacter(c: char)
    requires c !in "+^%#{}\n"
    ensures !IsModifier(c) && !IsBrace(c) && c != '\n'
  {
    var s := "+^%#{}\n";
    assert s[0] == '+' && s[1] == '^' && s[2] == '%' && s[3] == '#' && s[4] == '{' && s[5] == '}' && s[6] == '\n';
  }

  lemma LowerKeepsPlain(name: string)
    requires PlainName(Lower(name))
    ensures PlainName(name)
  {
    forall i | 0 <= i < |name|
      ensures !IsBrace(name[i]) && !IsSpace(name[i])
    {
      assert Lower(name)[i] == LowerChar(name[i]);
    }
  }

  /** The name of a key is read with any count. */
  lemma KeyIsReadable(name: string, spaces: string, count: Written)
    requires FindKey(Lower(name)).Present? && name != "{" && name != "}" && Separates(spaces, Spelling(count))
    ensures Readable(name, Spelling(count))
  {
    if |name| == 1 {
      KeyTable.OneCharacter(Lower(name)[0]);
      assert Lower(name) == [Lower(name)[0]];
      assert name == [name[0]];
    } else {
      KeyTable.KeyNamesArePlain(Lower(name));
      LowerKeepsPlain(name);
    }
    PlainSpacedIsCanonical(name, spaces, Spelling(count));
    SpacedIsCanonicalIff(name, spaces, Spelling(count));
  }

  // ---------------------------------------------------------------------
  // Pieces mean what they say
  // ---------------------------------------------------------------------

  ghost predicate MeansAs(p: Piece, i: nat, entry: Entry, host: Host, syntaxOnly: bool, elapsedMs: int)
    requires Sensible(p)
  {
    MatchStep(TokenOf(ReadAs(p)), i, entry, host, syntaxOnly, elapsedMs)
    == Says(p, i, entry, host, syntaxOnly, elapsedMs)
  }

  lemma PressMeans(p: Piece, i: nat, entry: Entry, host: Host, syntaxOnly: bool, elapsedMs: int)
    requires Sensible(p) && p.Braced? && p.sense.Press?
    ensures MeansAs(p, i, entry, host, syntaxOnly, elapsedMs)
  {
    var key := FindKey(Lower(p.name)).key;
    if key.Unknown? {
      ReadableIsNoBrace(p.name, Spelling(p.count));
      UnknownIsOwn(p.name);
      OwnNameMeans(p.keys, Braces(p), p.name[0], p.count, i, entry, host, syntaxOnly, elapsedMs);
    } else {
      KeyMeans(p.keys, Braces(p), p.name, p.count, key, i, entry, host, syntaxOnly, elapsedMs);
    }
  }

  lemma ReadableIsNoBrace(name: string, repeat: string)
    requires Readable(name, repeat)
    ensures name != "{" && name != "}"
  {
    assert "{"[1..] == "";
  }

  lemma UnknownIsOwn(name: string)
    requires FindKey(Lower(name)) == Present(Unknown) && name != "{" && name != "}"
    ensures |name| == 1 && name == [name[0]] && name[0] in "()[]+%^~#"
  {
    if |name| == 1 {
      OneCharacterIsOwn(name[0]);
      assert Lower(name) == [LowerChar(name[0])];
    } else {
      KeyTable.KeyNamesArePlain(Lower(name));
    }
  }

  lemma OneCharacterIsOwn(c: char)
    ensures FindKey([LowerChar(c)]) == Present(Unknown) && !IsBrace(c) ==> c in "()[]+%^~#"
  {
    KeyTable.OneCharacter(LowerChar(c));
    var s := "()[]+%^~#";
    assert s[0] == '(' && s[1] == ')' && s[2] == '[' && s[3] == ']' && s[4] == '+' && s[5] == '%' && s[6] == '^';
    assert s[7] == '~' && s[8] == '#';
  }

  lemma NoPaceMeans(p: Piece, i: nat, entry: Entry, host: Host, syntaxOnly: bool, elapsedMs: int)
    requires Sensible(p) && p.Braced? && p.sense.NoPace?
    ensures MeansAs(p, i, entry, host, syntaxOnly, elapsedMs)
  {
    OtherDelayMeans(Signs(p.keys), Braces(p), p.name, Spelling(p.count), p.sense.text,
                    i, entry, host, syntaxOnly, elapsedMs);
  }

  lemma SwitchIsRead(modifiers: string, full: string, name: string, repeat: string, mode: Mode,
                     i: nat, entry: Entry, host: Host, syntaxOnly: bool, elapsedMs: int)
    requires Fits(name, Switch(mode))
    ensures MatchStep(TokenOf(Placeholder(modifiers, full, name, repeat)), i, entry, host, syntaxOnly, elapsedMs)
         == Emit([SetMode(mode)], 0)
  {
    ModeMeans(modifiers, full, name, repeat, i, entry, host, syntaxOnly, elapsedMs);
  }

  lemma DigitsAreSaid(modifiers: string, full: string, name: string, repeat: string,
                      i: nat, entry: Entry, host: Host, syntaxOnly: bool, elapsedMs: int)
    requires Fits(name, Digits)
    ensures MatchStep(TokenOf(Placeholder(modifiers, full, name, repeat)), i, entry, host, syntaxOnly, elapsedMs)
         == SaysDigits(i, entry, host, elapsedMs)
  {
    KeyTable.TotpCommands();
  }

  lemma PickIsSaid(modifiers: string, full: string, name: string, repeat: string, attribute: string,
                   i: nat, entry: Entry, host: Host, syntaxOnly: bool, elapsedMs: int)
    requires Fits(name, PickFrom(attribute))
    ensures MatchStep(TokenOf(Placeholder(modifiers, full, name, repeat)), i, entry, host, syntaxOnly, elapsedMs)
         == SaysPicked(name, attribute, i, entry, host, syntaxOnly)
  {
    KeyTable.PickCommand(Lower(name));
    PickedAttribute(name, attribute);
  }

  lemma ConversionIsSaid(modifiers: string, full: string, name: string, repeat: string,
                         i: nat, entry: Entry, host: Host, syntaxOnly: bool, elapsedMs: int)
    requires Fits(name, Convert)
    ensures MatchStep(TokenOf(Placeholder(modifiers, full, name, repeat)), i, entry, host, syntaxOnly, elapsedMs)
         == SaysAnswer(host.resolvers(i).convert(name))
  {
    KeyTable.ConversionCommands(Lower(name));
  }

  lemma ReplacementIsSaid(modifiers: string, full: string, name: string, repeat: string,
                          i: nat, entry: Entry, host: Host, syntaxOnly: bool, elapsedMs: int)
    requires Fits(name, Replace)
    ensures MatchStep(TokenOf(Placeholder(modifiers, full, name, repeat)), i, entry, host, syntaxOnly, elapsedMs)
         == SaysAnswer(host.resolvers(i).replace(name))
  {
    KeyTable.ConversionCommands(Lower(name));
  }

  lemma FieldIsSaid(modifiers: string, full: string, name: string, repeat: string,
                    i: nat, entry: Entry, host: Host, syntaxOnly: bool, elapsedMs: int)
    requires Fits(name, Field)
    ensures var text := host.resolvers(i).resolve(full);
            MatchStep(TokenOf(Placeholder(modifiers, full, name, repeat)), i, entry, host, syntaxOnly, elapsedMs)
            == if text == full then Stop(InvalidPlaceholder(full)) else Emit(Resolved(text), 0)
  {
    KeyTable.OtherNames(Lower(name));
  }

  lemma TextMeans(p: Piece, i: nat, entry: Entry, host: Host, syntaxOnly: bool, elapsedMs: int)
    requires Sensible(p) && p.Braced?
    requires p.sense.Convert? || p.sense.Replace? || p.sense.Field?
    ensures MeansAs(p, i, entry, host, syntaxOnly, elapsedMs)
  {
    var modifiers, repeat := Signs(p.keys), Spelling(p.count);
    match p.sense
    case Convert => ConversionIsSaid(modifiers, Braces(p), p.name, repeat, i, entry, host, syntaxOnly, elapsedMs);
    case Replace => ReplacementIsSaid(modifiers, Braces(p), p.name, repeat, i, entry, host, syntaxOnly, elapsedMs);
    case Field => FieldIsSaid(modifiers, Braces(p), p.name, repeat, i, entry, host, syntaxOnly, elapsedMs);
  }

  lemma AskingMeans(p: Piece, i: nat, entry: Entry, host: Host, syntaxOnly: bool, elapsedMs: int)
    requires Sensible(p) && p.Braced?
    requires p.sense.Switch? || p.sense.Digits? || p.sense.PickFrom?
    ensures MeansAs(p, i, entry, host, syntaxOnly, elapsedMs)
  {
    var modifiers, repeat := Signs(p.keys), Spelling(p.count);
    match p.sense
    case Switch(mode) =>
      SwitchIsRead(modifiers, Braces(p), p.name, repeat, mode, i, entry, host, syntaxOnly, elapsedMs);
    case Digits => DigitsAreSaid(modifiers, Braces(p), p.name, repeat, i, entry, host, syntaxOnly, elapsedMs);
    case PickFrom(attribute) =>
      PickIsSaid(modifiers, Braces(p), p.name, repeat, attribute, i, entry, host, syntaxOnly, elapsedMs);
  }

  lemma PaceMeans(p: Piece, i: nat, entry: Entry, host: Host, syntaxOnly: bool, elapsedMs: int)
    requires Sensible(p) && p.Braced? && p.sense.Pace?
    ensures MeansAs(p, i, entry, host, syntaxOnly, elapsedMs)
  {
    var Pace(before, sign, zeros, value, after) := p.sense;
    SetDelayMeans(Signs(p.keys), Braces(p), p.name, Spelling(p.count), before, sign, zeros, value, after,
                  i, entry, host, syntaxOnly, elapsedMs);
  }

  lemma PieceMeans(p: Piece, i: nat, entry: Entry, host: Host, syntaxOnly: bool, elapsedMs: int)
    requires Sensible(p)
    ensures MeansAs(p, i, entry, host, syntaxOnly, elapsedMs)
  {
    if p.Char? {
      CharacterMeans(p.keys, p.c, i, entry, host, syntaxOnly, elapsedMs);
    } else {
      BracedMeans(p, i, entry, host, syntaxOnly, elapsedMs);
    }
  }

  lemma BracedMeans(p: Piece, i: nat, entry: Entry, host: Host, syntaxOnly: bool, elapsedMs: int)
    requires Sensible(p) && p.Braced?
    ensures MeansAs(p, i, entry, host, syntaxOnly, elapsedMs)
  {
    var modifiers, repeat := Signs(p.keys), Spelling(p.count);
    match p.sense
    case Press => PressMeans(p, i, entry, host, syntaxOnly, elapsedMs);
    case Pause => WaitMeans(modifiers, Braces(p), p.name, p.count, i, entry, host, syntaxOnly, elapsedMs);
    case Pace(_, _, _, _, _) => PaceMeans(p, i, entry, host, syntaxOnly, elapsedMs);
    case NoPace(_) => NoPaceMeans(p, i, entry, host, syntaxOnly, elapsedMs);
    case Wipe => ClearFieldMeans(modifiers, Braces(p), p.name, repeat, i, entry, host, syntaxOnly, elapsedMs);
    case Switch(_) => AskingMeans(p, i, entry, host, syntaxOnly, elapsedMs);
    case Digits => AskingMeans(p, i, entry, host, syntaxOnly, elapsedMs);
    case PickFrom(_) => AskingMeans(p, i, entry, host, syntaxOnly, elapsedMs);
    case Convert => TextMeans(p, i, entry, host, syntaxOnly, elapsedMs);
    case Replace => TextMeans(p, i, entry, host, syntaxOnly, elapsedMs);
    case Field => TextMeans(p, i, entry, host, syntaxOnly, elapsedMs);
    case Skip => IgnoredMeans(modifiers, Braces(p), p.name, repeat, i, entry, host, syntaxOnly, elapsedMs);
  }

  // ---------------------------------------------------------------------
  // Every match is a piece
  // ---------------------------------------------------------------------

  lemma PaceOf(name: string) returns (sense: Sense)
    requires "delay=" <= Lower(name)
    ensures Fits(name, sense)
  {
    var value := DelayIsSet(Lower(name));
    if IsNumeral(value) {
      var before, sign, zeros: nat, n: nat, after :|
        Numerals.AllSpaces(before) && Numerals.AllSpaces(after) && (sign == "" || sign == "+" || sign == "-")
        && value == Numeral(before, sign, zeros, n, after);
      sense := Pace(before, sign, zeros, n, after);
    } else {
      sense := NoPace(value);
    }
  }

  lemma PickOf(name: string) returns (sense: Sense)
    requires "pickchars" <= Lower(name)
    ensures Fits(name, sense)
  {
    var attribute := "Password";
    if ':' in name {
      var head;
      head, attribute := SplitsAtFirst(name, ':');
    }
    sense := PickFrom(attribute);
  }

  lemma {:induction false} SplitsAtFirst(s: string, c: char) returns (head: string, rest: string)
    requires c in s
    ensures c !in head && s == head + [c] + rest
  {
    if s[0] == c {
      head, rest := [], s[1..];
      assert s == [c] + s[1..];
    } else {
      head, rest := SplitsAtFirst(s[1..], c);
      assert s == [s[0]] + s[1..];
      assert [s[0]] + (head + [c] + rest) == [s[0]] + head + [c] + rest;
      head := [s[0]] + head;
    }
  }

  /** Every name has a sense. */
  lemma SenseOf(name: string) returns (sense: Sense)
    ensures Fits(name, sense)
  {
    var small := Lower(name);
    if FindKey(small).Present? {
      sense := Press;
    } else if "delay=" <= small {
      sense := PaceOf(name);
    } else if "pickchars" <= small {
      sense := PickOf(name);
    } else if "mode=" <= small {
      sense := Switch(if NamesVirtual(small) then Virtual else Normal);
    } else {
      sense := if small == "delay" then Pause
               else if small == "clearfield" then Wipe
               else if small == "totp" || small == "timeotp" then Digits
               else if "t-conv:" <= small then Convert
               else if "t-replace-rx:" <= small then Replace
               else if "beep" <= small || "vkey" <= small || "c:" <= small || "appactivate" <= small then Skip
               else Field;
    }
  }

  lemma PieceOf(m: Match) returns (p: Piece)
    requires AllModifiers(m.modifiers) && Spelled(m)
    ensures Sensible(p) && ReadAs(p) == m
  {
    var keys := ModifiersAreSigns(m.modifiers);
    match m {
      case Character(_, c) =>
        p := Char(keys, c);
      case Placeholder(_, full, inner, repeat) =>
        var spaces :| SpelledWith(m, spaces);
        var count := DigitsAreWritten(repeat);
        var sense := SenseOf(inner);
        p := Braced(keys, inner, spaces, count, sense);
    }
  }

  /** Every match that can be written is a piece that is read as this match. */
  lemma EveryMatchIsAPiece(m: Match) returns (p: Piece)
    requires Writable(m)
    ensures Sensible(p) && PlainChar(p) && ReadAs(p) == m
  {
    CanonicalIsSpelled(m);
    p := PieceOf(m);
  }

  lemma FoundIsPiece(s: string) returns (p: Piece)
    requires MatchAt(s).Found?
    ensures Sensible(p) && ReadAs(p) == MatchAt(s).m
  {
    if MatchAt(s).m.Placeholder? {
      ScannedGroupIsCanonical(s);
      CanonicalIsSpelled(MatchAt(s).m);
    }
    p := PieceOf(MatchAt(s).m);
  }

  /** Every text is scanned into pieces. */
  lemma {:induction false} PiecesOf(s: string) returns (ps: seq<Piece>)
    ensures ReadAll(ps) == Scan(s) && forall p :: p in ps ==> Sensible(p)
    decreases |s|
  {
    hide Sensible;
    if s == [] {
      ps := [];
    } else if MatchAt(s).NoMatch? {
      ps := PiecesOf(s[1..]);
    } else {
      var p := FoundIsPiece(s);
      var later := PiecesOf(s[|MatchAt(s).m.Text()|..]);
      ps := [p] + later;
      ReadAllCons(p, later);
    }
  }

  // ---------------------------------------------------------------------
  // Whole sequences
  // ---------------------------------------------------------------------

  lemma {:induction false} TextsAreWritten(ps: seq<Piece>)
    ensures Texts(ReadAll(ps)) == WriteAll(ps)
  {
    if ps != [] {
      TextsAreWritten(ps[1..]);
      ReadAllCons(ps[0], ps[1..]);
      assert ps == [ps[0]] + ps[1..];
    }
  }

  lemma SayNext(ps: seq<Piece>, i: nat, entry: Entry, host: Host, syntaxOnly: bool,
                before: seq<Action>, waited: int, typing: int)
    requires i < |ps| && forall q :: q in ps ==> Sensible(q)
    ensures SayAll(ps, i, entry, host, syntaxOnly, before, waited, typing)
         == match Says(ps[i], i, entry, host, syntaxOnly, waited + typing * |before|)
            case Stop(error) => Rejected(error)
            case Emit(segment, more) =>
              SayAll(ps, i + 1, entry, host, syntaxOnly, before + segment, waited + more, typing)
  {
  }

  /** The next piece of a sequence, and the next match of what it is read as. */
  lemma NextIsSaid(ps: seq<Piece>, i: nat, entry: Entry, host: Host, syntaxOnly: bool, p: Progress)
    returns (step: Step)
    requires i < |ps| && forall q :: q in ps ==> Sensible(q)
    ensures step == MatchStep(TokenOf(ReadAs(ps[i])), i, entry, host, syntaxOnly, ElapsedMs(host, p))
    ensures SayAll(ps, i, entry, host, syntaxOnly, p.actions, p.cumulativeDelay, host.TypingDelay())
         == match step
            case Stop(error) => Rejected(error)
            case Emit(segment, more) =>
              SayAll(ps, i + 1, entry, host, syntaxOnly, p.actions + segment, p.cumulativeDelay + more,
                     host.TypingDelay())
  {
    hide Says, MatchStep;
    PieceMeans(ps[i], i, entry, host, syntaxOnly, ElapsedMs(host, p));
    step := Says(ps[i], i, entry, host, syntaxOnly, ElapsedMs(host, p));
    SayNext(ps, i, entry, host, syntaxOnly, p.actions, p.cumulativeDelay, host.TypingDelay());
  }

  lemma {:induction false} CompiledIsSaid(ps: seq<Piece>, i: nat, entry: Entry, host: Host, syntaxOnly: bool,
                                          p: Progress)
    requires i <= |ps| && forall q :: q in ps ==> Sensible(q)
    ensures CompileFrom(Tokenize(ReadAll(ps)), i, entry, host, syntaxOnly, p)
         == SayAll(ps, i, entry, host, syntaxOnly, p.actions, p.cumulativeDelay, host.TypingDelay())
    decreases |ps| - i
  {
    hide Says, MatchStep, TokenOf;
    if i < |ps| {
      hide CompileFrom, SayAll;
      var step := NextIsSaid(ps, i, entry, host, syntaxOnly, p);
      CompileNext(Tokenize(ReadAll(ps)), i, entry, host, syntaxOnly, p, step);
      if step.Emit? {
        CompiledIsSaid(ps, i + 1, entry, host, syntaxOnly, Advance(p, step));
      }
    }
  }

  lemma CompileNext(ts: seq<Token>, i: nat, entry: Entry, host: Host, syntaxOnly: bool, p: Progress, step: Step)
    requires i < |ts| && step == MatchStep(ts[i], i, entry, host, syntaxOnly, ElapsedMs(host, p))
    ensures CompileFrom(ts, i, entry, host, syntaxOnly, p)
         == match step
            case Stop(error) => Rejected(error)
            case Emit(_, _) => CompileFrom(ts, i + 1, entry, host, syntaxOnly, Advance(p, step))
  {
  }

  /** What pieces say from the start, behind the two initial actions. The typing delay is held
      between 0 and 500 ms, and the start delay that TOTP times reckon with between 100 ms and ten
      seconds. */
  ghost function SayFromStart(ps: seq<Piece>, entry: Entry, host: Host, syntaxOnly: bool): Outcome
    requires forall p :: p in ps ==> Sensible(p)
  {
    var typing := if host.typeDelay < 0 then 0 else if host.typeDelay > 500 then 500 else host.typeDelay;
    var start := if host.startDelay < 100 then 100 else if host.startDelay > 10000 then 10000 else host.startDelay;
    SayAll(ps, 0, entry, host, syntaxOnly, [Begin, Delay(typing, true)], start, typing)
  }

  /** A sequence that is written from pieces compiles to what they say, or is rejected with the
      first of their errors. */
  lemma WrittenIsSaid(ps: seq<Piece>, entry: Entry, host: Host, syntaxOnly: bool)
    requires forall p :: p in ps ==> Sensible(p) && PlainChar(p)
    ensures Parse(WriteAll(ps), Given(entry), host, syntaxOnly) == SayFromStart(ps, entry, host, syntaxOnly)
  {
    forall m | m in ReadAll(ps)
      ensures Writable(m)
    {
      var i :| 0 <= i < |ps| && m == ReadAs(ps[i]);
      PieceIsWritable(ps[i]);
    }
    TextsAreWritten(ps);
    WrittenIsRead(ReadAll(ps));
    CompiledIsSaid(ps, 0, entry, host, syntaxOnly, Compiler.Start(host));
  }

  /** Any sequence whose braces count, however it is written, is scanned into such pieces, and
      compiles to what they say. */
  lemma EverySequenceIsSaid(sequence: string, entry: Entry, host: Host, syntaxOnly: bool) returns (ps: seq<Piece>)
    requires BracesCount(Rewrite(sequence))
    ensures ReadAll(ps) == Scan(Rewrite(sequence)) && forall p :: p in ps ==> Sensible(p)
    ensures Parse(sequence, Given(entry), host, syntaxOnly) == SayFromStart(ps, entry, host, syntaxOnly)
  {
    ps := PiecesOf(Rewrite(sequence));
    CompiledIsSaid(ps, 0, entry, host, syntaxOnly, Compiler.Start(host));
  }
}
