/** The loop that prints the translators of one language, wrapped into lines. */
module TranslatorList {
  import Text

  const WIDTH: nat := 120
  const INDENT: string := "        "
  const END: string := "</li>"

  // ---------------------------------------------------------------------
  // Lines given by where they are cut
  // ---------------------------------------------------------------------

  /** A name with the separator that follows it. */
  function Piece(names: seq<string>, i: nat): string
    requires i < |names|
  {
    if i < |names| - 1 then names[i] + ", " else names[i]
  }

  function PieceLength(names: seq<string>, i: nat): nat
    requires i < |names|
  {
    if i < |names| - 1 then |names[i]| + 2 else |names[i]|
  }

  lemma PieceLengthIsLength(names: seq<string>, i: nat)
    requires i < |names|
    ensures PieceLength(names, i) == |Piece(names, i)|
  {
  }

  function Pieces(names: seq<string>, a: nat, b: nat): string
    requires a <= b <= |names|
    decreases b
  {
    if a == b then [] else Pieces(names, a, b - 1) + Piece(names, b - 1)
  }

  /** The indices at which the lines end, when the first of them starts at a. */
  ghost predicate Cuts(names: seq<string>, a: nat, cuts: seq<nat>)
    decreases |cuts|
  {
    if cuts == [] then a == |names|
    else a <= cuts[0] <= |names| && Cuts(names, cuts[0], cuts[1..])
  }

  /** The same without the demand that the last line ends with the last name. */
  ghost predicate Ascending(names: seq<string>, a: nat, cuts: seq<nat>)
    decreases |cuts|
  {
    cuts != [] ==> a <= cuts[0] <= |names| && Ascending(names, cuts[0], cuts[1..])
  }

  function Layout(prefix: string, names: seq<string>, a: nat, cuts: seq<nat>): (lines: seq<string>)
    requires Ascending(names, a, cuts)
    ensures |lines| == |cuts|
    decreases |cuts|
  {
    if cuts == [] then []
    else [prefix + Pieces(names, a, cuts[0])] + Layout(INDENT, names, cuts[0], cuts[1..])
  }

  /** lines[-1] += text */
  function ExtendLast(lines: seq<string>, text: string): (r: seq<string>)
    requires lines != []
    ensures |r| == |lines|
  {
    lines[..|lines| - 1] + [lines[|lines| - 1] + text]
  }

  function LastLength(lines: seq<string>): nat
    requires lines != []
  {
    |lines[|lines| - 1]|
  }

  lemma ExtendedLength(lines: seq<string>, text: string)
    requires lines != []
    ensures LastLength(ExtendLast(lines, text)) == LastLength(lines) + |text|
  {
  }

  lemma ExtendTwice(lines: seq<string>, a: string, b: string)
    requires lines != []
    ensures ExtendLast(ExtendLast(lines, a), b) == ExtendLast(lines, a + b)
  {
    assert lines[|lines| - 1] + a + b == lines[|lines| - 1] + (a + b);
  }

  lemma ExtendCons(line: string, lines: seq<string>, text: string)
    ensures lines != [] ==> ExtendLast([line] + lines, text) == [line] + ExtendLast(lines, text)
    ensures ExtendLast([line], text) == [line + text]
  {
  }

  // ---------------------------------------------------------------------
  // Where the loop cuts
  // ---------------------------------------------------------------------

  /** The first name from i on that does not fit behind len characters. */
  function Fill(len: nat, names: seq<string>, i: nat): (end: nat)
    requires i <= |names|
    ensures i <= end <= |names|
    decreases |names| - i
  {
    if i == |names| || len + |names[i]| >= WIDTH then i
    else Fill(len + PieceLength(names, i), names, i + 1)
  }

  /** The lines behind the first one: each takes one name whatever its length, and then what fits. */
  function CutsFrom(names: seq<string>, a: nat): seq<nat>
    requires a <= |names|
    decreases |names| - a
  {
    if a == |names| then []
    else
      var end := Fill(|INDENT| + PieceLength(names, a), names, a + 1);
      [end] + CutsFrom(names, end)
  }

  /** The cuts from the middle of a line that has len characters. */
  function CutsBehind(len: nat, names: seq<string>, i: nat): seq<nat>
    requires i <= |names|
  {
    var end := Fill(len, names, i);
    [end] + CutsFrom(names, end)
  }

  function GreedyCuts(header: string, names: seq<string>): seq<nat> {
    CutsBehind(|header|, names, 0)
  }

  lemma {:induction false} CutsFromAreCuts(names: seq<string>, a: nat)
    requires a <= |names|
    ensures Cuts(names, a, CutsFrom(names, a))
    decreases |names| - a
  {
    if a < |names| {
      var end := Fill(|INDENT| + PieceLength(names, a), names, a + 1);
      CutsFromAreCuts(names, end);
      assert CutsFrom(names, a)[1..] == CutsFrom(names, end);
    }
  }

  lemma GreedyCutsAreCuts(header: string, names: seq<string>)
    ensures Cuts(names, 0, GreedyCuts(header, names))
  {
    var end := Fill(|header|, names, 0);
    CutsFromAreCuts(names, end);
    assert GreedyCuts(header, names)[1..] == CutsFrom(names, end);
  }

  lemma {:induction false} CutsAscend(names: seq<string>, a: nat, cuts: seq<nat>)
    requires Cuts(names, a, cuts)
    ensures Ascending(names, a, cuts)
    decreases |cuts|
  {
    if cuts != [] {
      CutsAscend(names, cuts[0], cuts[1..]);
    }
  }

  /** The lines that the loop is meant to produce. */
  function Wrapped(header: string, names: seq<string>): (lines: seq<string>)
    ensures lines != []
  {
    GreedyCutsAreCuts(header, names);
    CutsAscend(names, 0, GreedyCuts(header, names));
    ExtendLast(Layout(header, names, 0, GreedyCuts(header, names)), END)
  }

  // ---------------------------------------------------------------------
  // The loop
  // ---------------------------------------------------------------------

  ghost function LastCut(done: seq<nat>): nat {
    if done == [] then 0 else done[|done| - 1]
  }

  lemma {:induction false} AscendingAppend(names: seq<string>, a: nat, done: seq<nat>, i: nat)
    requires Ascending(names, a, done)
    requires (if done == [] then a else done[|done| - 1]) <= i <= |names|
    ensures Ascending(names, a, done + [i])
    decreases |done|
  {
    if done == [] {
      assert (done + [i])[1..] == [];
    } else {
      AscendingAppend(names, done[0], done[1..], i);
      assert (done + [i])[1..] == done[1..] + [i];
    }
  }

  /** Adding a name to the last line. */
  lemma {:induction false} LayoutGrows(prefix: string, names: seq<string>, a: nat, done: seq<nat>, i: nat)
    requires i < |names|
    requires Ascending(names, a, done) && (if done == [] then a else done[|done| - 1]) <= i
    ensures Ascending(names, a, done + [i]) && Ascending(names, a, done + [i + 1])
    ensures Layout(prefix, names, a, done + [i + 1])
         == ExtendLast(Layout(prefix, names, a, done + [i]), Piece(names, i))
    decreases |done|
  {
    AscendingAppend(names, a, done, i);
    AscendingAppend(names, a, done, i + 1);
    if done == [] {
      assert (done + [i])[1..] == [] && (done + [i + 1])[1..] == [];
      Text.Regroup(prefix, Pieces(names, a, i), Piece(names, i));
    } else {
      LayoutGrows(INDENT, names, done[0], done[1..], i);
      assert (done + [i])[1..] == done[1..] + [i] && (done + [i + 1])[1..] == done[1..] + [i + 1];
      ExtendCons(prefix + Pieces(names, a, done[0]), Layout(INDENT, names, done[0], done[1..] + [i]), Piece(names, i));
    }
  }

  lemma {:induction false} LayoutOpens(prefix: string, names: seq<string>, a: nat, done: seq<nat>, i: nat)
    requires Ascending(names, a, done + [i])
    ensures Ascending(names, a, done + [i] + [i])
    ensures Layout(prefix, names, a, done + [i] + [i]) == Layout(prefix, names, a, done + [i]) + [INDENT]
    decreases |done|
  {
    var cuts := done + [i];
    if done == [] {
      assert cuts[1..] == [] && (cuts + [i])[1..] == [i] && [i][1..] == [];
      assert Pieces(names, i, i) == [] && INDENT + [] == INDENT;
    } else {
      assert cuts[1..] == done[1..] + [i] && (cuts + [i])[1..] == done[1..] + [i] + [i];
      LayoutOpens(INDENT, names, cuts[0], done[1..], i);
    }
  }

  /** A name that does not fit opens a line, which it then starts. */
  lemma OpensAt(done: seq<nat>, len: nat, names: seq<string>, i: nat)
    requires i < |names| && len + |names[i]| >= WIDTH
    ensures done + CutsBehind(len, names, i) == done + [i] + CutsFrom(names, i)
  {
  }

  /** A name in its line, and a name that starts one, leave the later cuts where they were. */
  lemma FillsBy(len: nat, names: seq<string>, i: nat)
    requires i < |names|
    ensures len + |names[i]| < WIDTH ==>
              CutsBehind(len, names, i) == CutsBehind(len + PieceLength(names, i), names, i + 1)
    ensures CutsFrom(names, i) == CutsBehind(|INDENT| + PieceLength(names, i), names, i + 1)
  {
  }

  /** The lines before the i-th name are laid out as the cuts made so far say. */
  ghost predicate LaidOut(header: string, names: seq<string>, lines: seq<string>, done: seq<nat>, i: nat) {
    && i <= |names| && lines != []
    && Ascending(names, 0, done) && LastCut(done) <= i && Ascending(names, 0, done + [i])
    && lines == Layout(header, names, 0, done + [i])
  }

  /** The loop before its i-th name: what is laid out, and where the cuts will be. */
  ghost predicate Wrapping(header: string, names: seq<string>, lines: seq<string>, done: seq<nat>, i: nat) {
    && LaidOut(header, names, lines, done, i)
    && GreedyCuts(header, names) == done + CutsBehind(LastLength(lines), names, i)
  }

  lemma NameLaidOut(header: string, names: seq<string>, lines: seq<string>, done: seq<nat>, i: nat)
    requires i < |names| && LaidOut(header, names, lines, done, i)
    ensures LaidOut(header, names, ExtendLast(lines, Piece(names, i)), done, i + 1)
  {
    LayoutGrows(header, names, 0, done, i);
  }

  lemma SameLine(header: string, names: seq<string>, lines: seq<string>, done: seq<nat>, i: nat)
    requires i < |names| && Wrapping(header, names, lines, done, i)
    requires LastLength(lines) + |names[i]| < WIDTH
    ensures Wrapping(header, names, ExtendLast(lines, Piece(names, i)), done, i + 1)
  {
    NameLaidOut(header, names, lines, done, i);
    ExtendedLength(lines, Piece(names, i));
    PieceLengthIsLength(names, i);
    FillsBy(LastLength(lines), names, i);
  }

  lemma LineLaidOut(header: string, names: seq<string>, lines: seq<string>, done: seq<nat>, i: nat)
    requires LaidOut(header, names, lines, done, i)
    ensures LaidOut(header, names, lines + [INDENT], done + [i], i)
  {
    LayoutOpens(header, names, 0, done, i);
  }

  lemma NewLine(header: string, names: seq<string>, lines: seq<string>, done: seq<nat>, i: nat)
    requires i < |names| && Wrapping(header, names, lines, done, i)
    requires LastLength(lines) + |names[i]| >= WIDTH
    ensures Wrapping(header, names, ExtendLast(lines + [INDENT], Piece(names, i)), done + [i], i + 1)
  {
    LineLaidOut(header, names, lines, done, i);
    NameLaidOut(header, names, lines + [INDENT], done + [i], i);
    OpensAt(done, LastLength(lines), names, i);
    ExtendedLength(lines + [INDENT], Piece(names, i));
    PieceLengthIsLength(names, i);
    FillsBy(|INDENT|, names, i);
  }

  /** The wrapping loop of I18N.run_tx_list_translators for one language. */
  method WrapNames(header: string, names: seq<string>) returns (lines: seq<string>)
    ensures lines == Wrapped(header, names)
  {
    lines := [header];
    ghost var done: seq<nat> := [];
    StartOfLoop(header, names);
    var i := 0;
    while i < |names|
      invariant Wrapping(header, names, lines, done, i)
    {
      var m := names[i];
      if LastLength(lines) + |m| >= WIDTH {
        NewLine(header, names, lines, done, i);
        lines := lines + [INDENT];
        done := done + [i];
      } else {
        SameLine(header, names, lines, done, i);
      }
      lines := AppendName(lines, names, i);
      i := i + 1;
    }
    EndOfLoop(header, names, lines, done);
    lines := ExtendLast(lines, END);
  }

  /** lines[-1] += m, and the separator unless m is the last name. */
  method AppendName(before: seq<string>, names: seq<string>, i: nat) returns (lines: seq<string>)
    requires before != [] && i < |names|
    ensures lines == ExtendLast(before, Piece(names, i))
  {
    lines := ExtendLast(before, names[i]);
    if i < |names| - 1 {
      ExtendTwice(before, names[i], ", ");
      lines := ExtendLast(lines, ", ");
    }
  }

  lemma EndOfLoop(header: string, names: seq<string>, lines: seq<string>, done: seq<nat>)
    requires Wrapping(header, names, lines, done, |names|)
    ensures ExtendLast(lines, END) == Wrapped(header, names)
  {
    assert CutsBehind(LastLength(lines), names, |names|) == [|names|];
  }

  lemma StartOfLoop(header: string, names: seq<string>)
    ensures Ascending(names, 0, []) && Ascending(names, 0, [] + [0])
    ensures Layout(header, names, 0, [] + [0]) == [header]
  {
    assert ([] + [0])[1..] == [];
    assert header + Pieces(names, 0, 0) == header;
  }

  // ---------------------------------------------------------------------
  // Nothing is lost
  // ---------------------------------------------------------------------

  function Joined(names: seq<string>): string {
    if names == [] then []
    else if |names| == 1 then names[0]
    else names[0] + (", " + Joined(names[1..]))
  }

  function Unindented(line: string): string {
    if INDENT <= line then line[|INDENT|..] else line
  }

  /** The lines without their breaks and the indents behind them. */
  function Unwrapped(lines: seq<string>): string {
    if lines == [] then [] else lines[0] + Continued(lines[1..])
  }

  function Continued(lines: seq<string>): string {
    if lines == [] then [] else Unindented(lines[0]) + Continued(lines[1..])
  }

  lemma UnindentedOf(text: string)
    ensures Unindented(INDENT + text) == text
  {
  }

  lemma UnindentedExtends(line: string, text: string)
    requires INDENT <= line
    ensures Unindented(line + text) == Unindented(line) + text
  {
  }

  lemma ContinuedCons(line: string, lines: seq<string>)
    ensures Continued([line] + lines) == Unindented(line) + Continued(lines)
  {
    assert ([line] + lines)[1..] == lines;
  }

  lemma UnwrappedCons(line: string, lines: seq<string>)
    ensures Unwrapped([line] + lines) == line + Continued(lines)
  {
    assert ([line] + lines)[1..] == lines;
  }

  lemma {:induction false} ContinuedExtends(lines: seq<string>, text: string)
    requires lines != [] && INDENT <= lines[|lines| - 1]
    ensures Continued(ExtendLast(lines, text)) == Continued(lines) + text
    decreases |lines|
  {
    var line, later := lines[0], lines[1..];
    assert lines == [line] + later;
    ExtendCons(line, later, text);
    ContinuedCons(line, later);
    if later == [] {
      UnindentedExtends(line, text);
      ContinuedCons(line + text, []);
      assert [line + text] + [] == [line + text];
      assert Unindented(line) + [] == Unindented(line) && Unindented(line + text) + [] == Unindented(line + text);
    } else {
      ContinuedExtends(later, text);
      ContinuedCons(line, ExtendLast(later, text));
      Text.Regroup(Unindented(line), Continued(later), text);
    }
  }

  lemma UnwrappedExtends(lines: seq<string>, text: string)
    requires lines != [] && (|lines| > 1 ==> INDENT <= lines[|lines| - 1])
    ensures Unwrapped(ExtendLast(lines, text)) == Unwrapped(lines) + text
  {
    var line, later := lines[0], lines[1..];
    assert lines == [line] + later;
    ExtendCons(line, later, text);
    UnwrappedCons(line, later);
    if later == [] {
      UnwrappedCons(line + text, []);
      assert [line + text] + [] == [line + text];
    } else {
      ContinuedExtends(later, text);
      UnwrappedCons(line, ExtendLast(later, text));
      Text.Regroup(line, Continued(later), text);
    }
  }

  lemma {:induction false} PiecesSplit(names: seq<string>, a: nat, b: nat, c: nat)
    requires a <= b <= c <= |names|
    ensures Pieces(names, a, c) == Pieces(names, a, b) + Pieces(names, b, c)
    decreases c
  {
    if b < c {
      PiecesSplit(names, a, b, c - 1);
      Text.Regroup(Pieces(names, a, b), Pieces(names, b, c - 1), Piece(names, c - 1));
    }
  }

  lemma JoinedCons(names: seq<string>, a: nat)
    requires a < |names|
    ensures Joined(names[a..]) == Piece(names, a) + Joined(names[a + 1..])
  {
    assert names[a..][1..] == names[a + 1..];
    if a < |names| - 1 {
      Text.Regroup(names[a], ", ", Joined(names[a + 1..]));
    }
  }

  lemma {:induction false} PiecesJoin(names: seq<string>, a: nat)
    requires a <= |names|
    ensures Pieces(names, a, |names|) == Joined(names[a..])
    decreases |names| - a
  {
    if a < |names| {
      PiecesJoin(names, a + 1);
      PiecesSplit(names, a, a + 1, |names|);
      assert Pieces(names, a, a) == [];
      JoinedCons(names, a);
    }
  }

  lemma {:induction false} ContinuedLayout(names: seq<string>, a: nat, cuts: seq<nat>)
    requires a <= |names| && Cuts(names, a, cuts) && Ascending(names, a, cuts)
    ensures Continued(Layout(INDENT, names, a, cuts)) == Pieces(names, a, |names|)
    decreases |cuts|
  {
    if cuts != [] {
      var text := Pieces(names, a, cuts[0]);
      ContinuedLayout(names, cuts[0], cuts[1..]);
      ContinuedCons(INDENT + text, Layout(INDENT, names, cuts[0], cuts[1..]));
      UnindentedOf(text);
      PiecesSplit(names, a, cuts[0], |names|);
    }
  }

  lemma UnwrapLayout(header: string, names: seq<string>, cuts: seq<nat>)
    requires Cuts(names, 0, cuts) && Ascending(names, 0, cuts) && cuts != []
    ensures Unwrapped(Layout(header, names, 0, cuts)) == header + Pieces(names, 0, |names|)
  {
    var text := Pieces(names, 0, cuts[0]);
    ContinuedLayout(names, cuts[0], cuts[1..]);
    UnwrappedCons(header + text, Layout(INDENT, names, cuts[0], cuts[1..]));
    PiecesSplit(names, 0, cuts[0], |names|);
    Text.Regroup(header, text, Pieces(names, cuts[0], |names|));
  }

  /** Continuation lines begin with the indent. */
  lemma {:induction false} LayoutIndents(prefix: string, names: seq<string>, a: nat, cuts: seq<nat>, k: nat)
    requires Ascending(names, a, cuts) && k < |cuts| && (k > 0 || prefix == INDENT)
    ensures INDENT <= Layout(prefix, names, a, cuts)[k]
    decreases |cuts|
  {
    if k > 0 {
      LayoutIndents(INDENT, names, cuts[0], cuts[1..], k - 1);
    }
  }

  /** Without the line breaks and the indents behind them, the printed item is the header,
      the names in order, separated by commas, and the closing tag: no name is lost,
      repeated or moved. */
  lemma WrappingConserves(header: string, names: seq<string>)
    ensures forall k :: 0 < k < |Wrapped(header, names)| ==> INDENT <= Wrapped(header, names)[k]
    ensures Unwrapped(Wrapped(header, names)) == header + Joined(names) + END
  {
    var cuts := GreedyCuts(header, names);
    GreedyCutsAreCuts(header, names);
    CutsAscend(names, 0, cuts);
    var lines := Layout(header, names, 0, cuts);
    forall k | 0 < k < |lines|
      ensures INDENT <= lines[k]
    {
      LayoutIndents(header, names, 0, cuts, k);
    }
    UnwrapLayout(header, names, cuts);
    UnwrappedExtends(lines, END);
    PiecesJoin(names, 0);
    assert names[0..] == names;
  }

  // ---------------------------------------------------------------------
  // Legal lines: length bound and optimality
  // ---------------------------------------------------------------------

  /** The length of the names from a to b with their separators. */
  ghost function Width(names: seq<string>, a: nat, b: nat): nat
    requires a <= b <= |names|
    decreases b
  {
    if a == b then 0 else Width(names, a, b - 1) + PieceLength(names, b - 1)
  }

  lemma PiecesLength(names: seq<string>, a: nat, b: nat)
    requires a < b <= |names|
    ensures |Pieces(names, a, b)| == |Pieces(names, a, b - 1)| + PieceLength(names, b - 1)
  {
    PieceLengthIsLength(names, b - 1);
  }

  lemma {:induction false} WidthOfPieces(names: seq<string>, a: nat, b: nat)
    requires a <= b <= |names|
    ensures Width(names, a, b) == |Pieces(names, a, b)|
    decreases b
  {
    if a < b {
      WidthOfPieces(names, a, b - 1);
      PiecesLength(names, a, b);
    }
  }

  lemma {:induction false} WidthSplit(names: seq<string>, a: nat, b: nat, c: nat)
    requires a <= b <= c <= |names|
    ensures Width(names, a, c) == Width(names, a, b) + Width(names, b, c)
    decreases c
  {
    if b < c {
      WidthSplit(names, a, b, c - 1);
    }
  }

  /** The name i fits behind the names from a on. */
  ghost predicate Fits(len: nat, names: seq<string>, a: nat, i: nat)
    requires a <= i < |names|
  {
    len + Width(names, a, i) + |names[i]| < WIDTH
  }

  /** Every name of the line from a to b fits behind the names before it. */
  ghost predicate LegalLine(len: nat, names: seq<string>, a: nat, b: nat)
    requires a <= b <= |names|
  {
    forall i :: a <= i < b ==> Fits(len, names, a, i)
  }

  /** Every line obeys the rule that the loop tests; the first one has the given length to
      begin with, the others that of the indent. */
  ghost predicate Legal(len: nat, names: seq<string>, a: nat, cuts: seq<nat>)
    requires a <= |names| && Cuts(names, a, cuts)
    decreases |cuts|
  {
    cuts != [] ==> LegalLine(len, names, a, cuts[0]) && Legal(|INDENT|, names, cuts[0], cuts[1..])
  }

  lemma {:induction false} FillFits(len: nat, names: seq<string>, a: nat, i: nat, k: nat, w: nat)
    requires a <= i <= |names| && w == len + Width(names, a, i)
    requires i <= k < Fill(w, names, i)
    ensures Fits(len, names, a, k)
    decreases |names| - i
  {
    if i < k {
      FillFits(len, names, a, i + 1, k, w + PieceLength(names, i));
    }
  }

  lemma FillIsLegal(len: nat, names: seq<string>, a: nat, i: nat)
    requires a <= i <= |names|
    requires LegalLine(len, names, a, i)
    ensures LegalLine(len, names, a, Fill(len + Width(names, a, i), names, i))
  {
    var end := Fill(len + Width(names, a, i), names, i);
    forall k | a <= k < end
      ensures Fits(len, names, a, k)
    {
      if i <= k {
        FillFits(len, names, a, i, k, len + Width(names, a, i));
      }
    }
  }

  /** A line that is legal up to c is filled at least to c. */
  lemma {:induction false} FillReaches(len: nat, names: seq<string>, a: nat, i: nat, c: nat)
    requires a <= i <= c <= |names|
    requires LegalLine(len, names, a, c)
    ensures Fill(len + Width(names, a, i), names, i) >= c
    decreases |names| - i
  {
    if i < c {
      assert Fits(len, names, a, i);
      FillReaches(len, names, a, i + 1, c);
    }
  }

  /** A legal line stays legal when its first names are taken away. */
  lemma LegalSuffix(len: nat, names: seq<string>, a: nat, b: nat, c: nat)
    requires a <= b <= c <= |names| && LegalLine(len, names, a, c)
    ensures LegalLine(len, names, b, c)
  {
    forall i | b <= i < c
      ensures Fits(len, names, b, i)
    {
      assert Fits(len, names, a, i);
      WidthSplit(names, a, b, i);
    }
  }

  /** Where a line behind the first one ends, if it starts with the name a. */
  function LineEnd(names: seq<string>, a: nat): nat
    requires a < |names|
  {
    Fill(|INDENT| + PieceLength(names, a), names, a + 1)
  }

  lemma LineEndReaches(names: seq<string>, a: nat, a': nat, c: nat)
    requires a' <= a < |names| && a' <= c <= |names|
    requires LegalLine(|INDENT|, names, a', c)
    ensures c <= LineEnd(names, a)
  {
    if a < c {
      LegalSuffix(|INDENT|, names, a', a, c);
      assert Width(names, a, a) == 0;
      FillReaches(|INDENT|, names, a, a + 1, c);
    }
  }

  /** The greedy lines from a on are no more than the legal lines from an earlier place. */
  lemma {:induction false} GreedyStaysAhead(names: seq<string>, a: nat, a': nat, cuts: seq<nat>)
    requires a' <= a <= |names|
    requires Cuts(names, a', cuts) && Legal(|INDENT|, names, a', cuts)
    ensures |CutsFrom(names, a)| <= |cuts|
    decreases |cuts|
  {
    if a < |names| {
      LineEndReaches(names, a, a', cuts[0]);
      GreedyStaysAhead(names, LineEnd(names, a), cuts[0], cuts[1..]);
    }
  }

  /** No legal way to cut the names into lines has fewer lines than the loop makes. */
  lemma GreedyIsOptimal(header: string, names: seq<string>, cuts: seq<nat>)
    requires Cuts(names, 0, cuts) && Legal(|header|, names, 0, cuts) && cuts != []
    ensures |Wrapped(header, names)| <= |cuts|
  {
    assert Width(names, 0, 0) == 0;
    FillReaches(|header|, names, 0, 0, cuts[0]);
    GreedyStaysAhead(names, Fill(|header|, names, 0), cuts[0], cuts[1..]);
  }

  const MAX_NAME: nat := 111

  ghost predicate NamesFit(names: seq<string>) {
    forall i :: 0 <= i < |names| ==> |names[i]| <= MAX_NAME
  }

  lemma LineEndIsLegal(names: seq<string>, a: nat)
    requires a < |names| && NamesFit(names)
    ensures LegalLine(|INDENT|, names, a, LineEnd(names, a))
  {
    assert Width(names, a, a) == 0;
    assert Fits(|INDENT|, names, a, a);
    FillIsLegal(|INDENT|, names, a, a + 1);
  }

  lemma {:induction false} CutsFromLegal(names: seq<string>, a: nat)
    requires a <= |names| && NamesFit(names)
    requires Cuts(names, a, CutsFrom(names, a))
    ensures Legal(|INDENT|, names, a, CutsFrom(names, a))
    decreases |names| - a
  {
    if a < |names| {
      LineEndIsLegal(names, a);
      assert CutsFrom(names, a)[1..] == CutsFrom(names, LineEnd(names, a));
      CutsFromLegal(names, LineEnd(names, a));
    }
  }

  lemma {:induction false} GreedyIsLegal(header: string, names: seq<string>)
    requires NamesFit(names) && Cuts(names, 0, GreedyCuts(header, names))
    ensures Legal(|header|, names, 0, GreedyCuts(header, names))
  {
    var cuts := GreedyCuts(header, names);
    assert Width(names, 0, 0) == 0;
    FillIsLegal(|header|, names, 0, 0);
    assert cuts[1..] == CutsFrom(names, cuts[0]);
    CutsFromLegal(names, cuts[0]);
  }

  /** A legal line holds no name of more than 111 characters. */
  lemma {:induction false} LegalNamesFit(len: nat, names: seq<string>, a: nat, cuts: seq<nat>, i: nat)
    requires a <= i < |names| && Cuts(names, a, cuts) && Legal(len, names, a, cuts) && len >= |INDENT|
    ensures |names[i]| <= MAX_NAME
    decreases |cuts|
  {
    if i < cuts[0] {
      assert Fits(len, names, a, i);
    } else {
      LegalNamesFit(|INDENT|, names, cuts[0], cuts[1..], i);
    }
  }

  /** The loop's own lines are legal exactly if no name is longer than 111 characters; the
      header is never shorter than the indent. */
  lemma GreedyIsLegalIff(header: string, names: seq<string>)
    requires |header| >= |INDENT|
    ensures Cuts(names, 0, GreedyCuts(header, names))
    ensures Legal(|header|, names, 0, GreedyCuts(header, names)) <==> NamesFit(names)
  {
    GreedyCutsAreCuts(header, names);
    if NamesFit(names) {
      GreedyIsLegal(header, names);
    }
    if Legal(|header|, names, 0, GreedyCuts(header, names)) {
      forall i | 0 <= i < |names|
        ensures |names[i]| <= MAX_NAME
      {
        LegalNamesFit(|header|, names, 0, GreedyCuts(header, names), i);
      }
    }
  }

  /** The length of a legal line, with the separator behind its last name. */
  lemma LegalLineLength(prefix: string, names: seq<string>, a: nat, b: nat)
    requires a <= b <= |names| && |prefix| <= 119 && LegalLine(|prefix|, names, a, b)
    ensures |prefix + Pieces(names, a, b)| <= if b == |names| then 119 else 121
  {
    WidthOfPieces(names, a, b);
    if a < b {
      assert Fits(|prefix|, names, a, b - 1);
    }
  }

  lemma LastCutIsEnd(names: seq<string>, a: nat, cuts: seq<nat>)
    requires Cuts(names, a, cuts) && |cuts| == 1
    ensures cuts[0] == |names|
  {
    assert cuts[1..] == [];
  }

  lemma {:induction false} LegalLengths(prefix: string, names: seq<string>, a: nat, cuts: seq<nat>, k: nat)
    requires a <= |names| && Cuts(names, a, cuts) && Ascending(names, a, cuts) && Legal(|prefix|, names, a, cuts)
    requires |prefix| <= 119 && k < |cuts|
    ensures |Layout(prefix, names, a, cuts)[k]| <= if k == |cuts| - 1 then 119 else 121
    decreases |cuts|
  {
    if k == 0 {
      LegalLineLength(prefix, names, a, cuts[0]);
      if |cuts| == 1 {
        LastCutIsEnd(names, a, cuts);
      }
    } else {
      LegalLengths(INDENT, names, cuts[0], cuts[1..], k - 1);
    }
  }

  /** With a header of at most 119 characters and no name above 111, no line but the last is
      longer than 121 characters, and the last no longer than 124. */
  lemma WrappingBounds(header: string, names: seq<string>)
    requires |INDENT| <= |header| <= 119 && NamesFit(names)
    ensures var lines := Wrapped(header, names);
            forall k :: 0 <= k < |lines| ==> |lines[k]| <= if k == |lines| - 1 then 124 else 121
  {
    var cuts := GreedyCuts(header, names);
    GreedyIsLegalIff(header, names);
    CutsAscend(names, 0, cuts);
    var lines := Wrapped(header, names);
    forall k | 0 <= k < |lines|
      ensures |lines[k]| <= if k == |lines| - 1 then 124 else 121
    {
      LegalLengths(header, names, 0, cuts, k);
    }
  }
}
