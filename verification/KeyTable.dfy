/** The names that the documentation gives the keys and commands, and what the compiler takes them for. */
module KeyTable {
  import opened Actions
  import opened Placeholders
  import opened Numerals

  /** A row is found under its name unless an earlier one has the same name. */
  lemma {:induction false} FindRow(rows: seq<Row>, i: nat)
    requires i < |rows| && forall j :: 0 <= j < i ==> rows[j].name != rows[i].name
    ensures Find(rows, rows[i].name) == Present(rows[i].key)
  {
    if i > 0 {
      assert forall j :: 0 <= j < i - 1 ==> rows[1..][j] == rows[j + 1];
      FindRow(rows[1..], i - 1);
    }
  }

  lemma {:induction false} FindNot(rows: seq<Row>, name: string)
    requires forall i :: 0 <= i < |rows| ==> rows[i].name != name
    ensures Find(rows, name) == Absent
  {
    if rows != [] {
      FindNot(rows[1..], name);
    }
  }

  // ---------------------------------------------------------------------
  // Keys
  // ---------------------------------------------------------------------

  /** The arrow keys. */
  lemma ArrowKeys()
    ensures FindKey("up") == Present(Named("Up"))
    ensures FindKey("down") == Present(Named("Down"))
    ensures FindKey("left") == Present(Named("Left"))
    ensures FindKey("right") == Present(Named("Right"))
  {
    FindRow(RowsFrom('u'), 0);
    FindRow(RowsFrom('d'), 0);
    FindRow(RowsFrom('l'), 0);
    FindRow(RowsFrom('r'), 0);
  }

  /** The keys for white space. */
  lemma WhiteSpaceKeys()
    ensures FindKey("tab") == Present(Named("Tab"))
    ensures FindKey("enter") == Present(Named("Enter"))
    ensures FindKey("space") == Present(Printable(' '))
  {
    FindRow(RowsFrom('t'), 0);
    FindRow(RowsFrom('e'), 0);
    FindRow(RowsFrom('s'), 0);
  }

  lemma PagingKeys()
    ensures FindKey("home") == Present(Named("Home"))
    ensures FindKey("end") == Present(Named("End"))
    ensures FindKey("pgup") == Present(Named("PageUp"))
    ensures FindKey("pgdown") == Present(Named("PageDown"))
    ensures FindKey("pgdn") == Present(Named("PageDown"))
  {
    FindRow(RowsFrom('h'), 0);
    FindRow(RowsFrom('e'), 1);
    FindRow(RowsFrom('p'), 0);
    FindRow(RowsFrom('p'), 1);
    FindRow(RowsFrom('p'), 2);
  }

  lemma DeletingKeys()
    ensures FindKey("insert") == Present(Named("Insert"))
    ensures FindKey("ins") == Present(Named("Insert"))
    ensures FindKey("delete") == Present(Named("Delete"))
    ensures FindKey("del") == Present(Named("Delete"))
    ensures FindKey("backspace") == Present(Named("Backspace"))
    ensures FindKey("bs") == Present(Named("Backspace"))
    ensures FindKey("bksp") == Present(Named("Backspace"))
  {
    FindRow(RowsFrom('i'), 0);
    FindRow(RowsFrom('i'), 1);
    FindRow(RowsFrom('d'), 1);
    FindRow(RowsFrom('d'), 2);
    FindRow(RowsFrom('b'), 0);
    FindRow(RowsFrom('b'), 1);
    FindRow(RowsFrom('b'), 2);
  }

  /** The keys of the system. */
  lemma SystemKeys()
    ensures FindKey("esc") == Present(Named("Escape"))
    ensures FindKey("help") == Present(Named("Help"))
    ensures FindKey("break") == Present(Named("Pause"))
    ensures FindKey("ptrsc") == Present(Named("Print"))
  {
    FindRow(RowsFrom('e'), 2);
    FindRow(RowsFrom('h'), 1);
    FindRow(RowsFrom('b'), 3);
    FindRow(RowsFrom('p'), 3);
  }

  lemma LockKeys()
    ensures FindKey("capslock") == Present(Named("CapsLock"))
    ensures FindKey("numlock") == Present(Named("NumLock"))
    ensures FindKey("scrolllock") == Present(Named("ScrollLock"))
  {
    FindRow(RowsFrom('c'), 0);
    FindRow(RowsFrom('n'), 0);
    FindRow(RowsFrom('s'), 2);
  }

  lemma WindowKeys()
    ensures FindKey("win") == Present(Named("Meta"))
    ensures FindKey("lwin") == Present(Named("Meta"))
    ensures FindKey("rwin") == Present(Named("Meta"))
    ensures FindKey("apps") == Present(Named("Menu"))
  {
    FindRow(RowsFrom('w'), 0);
    FindRow(RowsFrom('l'), 3);
    FindRow(RowsFrom('r'), 3);
    FindRow(RowsFrom('a'), 1);
  }

  /** The signs of the number pad. */
  lemma SignKeys()
    ensures FindKey("add") == Present(Printable('+'))
    ensures FindKey("subtract") == Present(Printable('-'))
    ensures FindKey("multiply") == Present(Printable('*'))
    ensures FindKey("divide") == Present(Printable('/'))
  {
    FindRow(RowsFrom('a'), 0);
    FindRow(RowsFrom('s'), 1);
    FindRow(RowsFrom('m'), 0);
    FindRow(RowsFrom('d'), 3);
  }

  /** The names that the escapes are rewritten to, and the parentheses. */
  lemma BracesHaveKeys()
    ensures FindKey("leftbrace") == Present(Printable('{'))
    ensures FindKey("rightbrace") == Present(Printable('}'))
    ensures FindKey("leftparen") == Present(Printable('('))
    ensures FindKey("rightparen") == Present(Printable(')'))
  {
    FindRow(RowsFrom('l'), 1);
    FindRow(RowsFrom('r'), 1);
    FindRow(RowsFrom('l'), 2);
    FindRow(RowsFrom('r'), 2);
  }

  lemma NumpadRow(d: nat)
    requires d < 10
    ensures |RowsFrom('n')| == 11
    ensures RowsFrom('n')[d + 1] == Row("numpad" + [Digit(d)], Printable(Digit(d)))
  {
  }

  /** The digits of the number pad are digits, and there are ten of them. */
  lemma NumpadKeys(n: nat)
    ensures FindKey("numpad" + Decimal(n)) == if n < 10 then Present(Printable(Decimal(n)[0])) else Absent
  {
    var name := "numpad" + Decimal(n);
    assert name[0] == 'n' && name[3] == 'p';
    if n < 10 {
      NumpadIsFound(n);
    } else {
      NumpadIsShort();
      assert |Decimal(n)| > 1;
      FindNot(RowsFrom('n'), name);
    }
  }

  lemma NumpadIsShort()
    ensures forall i :: 0 <= i < |RowsFrom('n')| ==> |RowsFrom('n')[i].name| == 7
  {
  }

  lemma NumpadsDiffer(j: nat, d: nat)
    requires j <= d < 10
    ensures RowsFrom('n')[j].name != RowsFrom('n')[d + 1].name
  {
    NumpadRow(d);
    if j > 0 {
      NumpadRow(j - 1);
      assert RowsFrom('n')[j].name[6] == Digit(j - 1);
      assert RowsFrom('n')[d + 1].name[6] == Digit(d);
      DigitIsDigit(j - 1);
      DigitIsDigit(d);
    }
  }

  lemma NumpadIsFound(d: nat)
    requires d < 10
    ensures FindKey("numpad" + [Digit(d)]) == Present(Printable(Digit(d)))
  {
    NumpadRow(d);
    forall j | 0 <= j < d + 1
      ensures RowsFrom('n')[j].name != RowsFrom('n')[d + 1].name
    {
      NumpadsDiffer(j, d);
    }
    FindRow(RowsFrom('n'), d + 1);
  }

  lemma TwoDigits(n: nat)
    requires n < 20
    ensures Decimal(n) == if n < 10 then [Digit(n)] else "1" + [Digit(n - 10)]
  {
  }

  lemma FunctionRow(n: nat)
    requires 1 <= n <= 16
    ensures |RowsFrom('f')| == 16
    ensures RowsFrom('f')[n - 1] == Row("f" + Decimal(n), Named("F" + Decimal(n)))
  {
    TwoDigits(n);
    var row := RowsFrom('f')[n - 1];
    if n < 10 {
      assert row.name == "f" + [Digit(n)] && row.key == Named("F" + [Digit(n)]);
    } else {
      assert row.name == "f" + ("1" + [Digit(n - 10)]) && row.key == Named("F" + ("1" + [Digit(n - 10)]));
    }
  }

  lemma FunctionsDiffer(i: nat, n: nat)
    requires 1 <= i <= 16 && n != i
    ensures RowsFrom('f')[i - 1].name != "f" + Decimal(n)
  {
    FunctionRow(i);
    DecimalIsRead(i);
    DecimalIsRead(n);
    assert ("f" + Decimal(i))[1..] == Decimal(i) && ("f" + Decimal(n))[1..] == Decimal(n);
  }

  /** There are sixteen function keys. */
  lemma FunctionKeys(n: nat)
    ensures FindKey("f" + Decimal(n)) == if 1 <= n <= 16 then Present(Named("F" + Decimal(n))) else Absent
  {
    FunctionRow(1);
    forall i | 0 <= i < 16 && i + 1 != n
      ensures RowsFrom('f')[i].name != "f" + Decimal(n)
    {
      FunctionsDiffer(i + 1, n);
    }
    if 1 <= n <= 16 {
      FunctionRow(n);
      FindRow(RowsFrom('f'), n - 1);
    } else {
      FindNot(RowsFrom('f'), "f" + Decimal(n));
    }
  }

  lemma LongerNames(c: char)
    ensures forall i :: 0 <= i < |RowsFrom(c)| ==> |RowsFrom(c)[i].name| > 1
  {
    if c < 'i' {
      LongerBeforeI(c);
    } else {
      LongerFromI(c);
    }
  }

  lemma LongerBeforeI(c: char)
    requires c < 'i'
    ensures forall i :: 0 <= i < |RowsFrom(c)| ==> |RowsFrom(c)[i].name| > 1
  {
  }

  lemma LongerFromI(c: char)
    requires 'i' <= c
    ensures forall i :: 0 <= i < |RowsFrom(c)| ==> |RowsFrom(c)[i].name| > 1
  {
  }

  /** The characters that type themselves; no other name is that short. */
  lemma OneCharacter(c: char)
    ensures FindKey([c]) == if c == '{' || c == '}' || c == '(' || c == ')' || c == '[' || c == ']' || c == '+'
                               || c == '%' || c == '^' || c == '~' || c == '#' then Present(Unknown) else Absent
  {
    LongerNames(c);
    FindNot(RowsFrom(c), [c]);
  }

  /** The keys above are all the keys there are: how many begin with each letter. */
  lemma NoOtherRows(c: char)
    ensures |RowsFrom(c)| == if c == 'f' then 16
                             else if c == 'n' then 11
                             else if c == 'b' || c == 'd' || c == 'l' || c == 'p' || c == 'r' then 4
                             else if c == 'e' || c == 's' then 3
                             else if c == 'a' || c == 'h' || c == 'i' then 2
                             else if c == 'c' || c == 'm' || c == 't' || c == 'u' || c == 'w' then 1 else 0
  {
  }

  // ---------------------------------------------------------------------
  // Commands
  // ---------------------------------------------------------------------

  lemma DelayIsNoKey(name: string)
    requires "delay" <= name
    ensures FindKey(name) == Absent
  {
    assert name[0] == 'd' && name[3] == 'a';
    FindNot(RowsFrom('d'), name);
  }

  /** With a value behind it the delay is set, without one it is waited for. */
  lemma DelayCommands(name: string)
    ensures "delay=" <= name ==> Classify(name) == SetDelay
    ensures name == "delay" ==> Classify(name) == Wait
  {
    if "delay" <= name {
      DelayIsNoKey(name);
    }
  }

  lemma ClearFieldCommand()
    ensures Classify("clearfield") == Clear
  {
    FindNot(RowsFrom('c'), "clearfield");
  }

  lemma TotpCommands()
    ensures Classify("totp") == Totp
    ensures Classify("timeotp") == Totp
  {
    FindNot(RowsFrom('t'), "totp");
    FindNot(RowsFrom('t'), "timeotp");
  }

  lemma PickCommand(name: string)
    requires "pickchars" <= name
    ensures Classify(name) == PickCharacters
  {
    assert name[0] == 'p' && name[1] == 'i';
    FindNot(RowsFrom('p'), name);
  }

  /** The two text conversions. */
  lemma ConversionCommands(name: string)
    ensures "t-conv:" <= name ==> Classify(name) == Conversion
    ensures "t-replace-rx:" <= name ==> Classify(name) == RegexReplacement
  {
    if "t-" <= name {
      assert name[0] == 't' && name[1] == '-';
      FindNot(RowsFrom('t'), name);
    }
    if "t-replace-rx:" <= name {
      assert "t-" <= name && name[2] == 'r';
    }
    if "t-conv:" <= name {
      assert "t-" <= name;
    }
  }

  lemma ModeCommand(name: string)
    requires "mode=" <= name
    ensures Classify(name) == ModeSwitch
  {
    assert name[0] == 'm' && name[1] == 'o';
    FindNot(RowsFrom('m'), name);
  }

  /** Commands that do nothing. */
  lemma IgnoredCommands(name: string)
    requires "beep" <= name || "vkey" <= name || "c:" <= name || "appactivate" <= name
    ensures Classify(name) == Ignored
  {
    if "beep" <= name {
      BeepIsIgnored(name);
    } else if "vkey" <= name {
      assert name[0] == 'v';
    } else if "c:" <= name {
      assert name[0] == 'c' && name[1] == ':';
      FindNot(RowsFrom('c'), name);
    } else {
      ActivateIsIgnored(name);
    }
  }

  lemma BeepIsIgnored(name: string)
    requires "beep" <= name
    ensures Classify(name) == Ignored
  {
    assert name[0] == 'b' && name[1] == 'e';
    FindNot(RowsFrom('b'), name);
  }

  lemma ActivateIsIgnored(name: string)
    requires "appactivate" <= name
    ensures Classify(name) == Ignored
  {
    assert name[0] == 'a' && name[3] == 'a';
    FindNot(RowsFrom('a'), name);
  }

  lemma TitleField()
    ensures FindKey("title") == Absent
  {
    FindNot(RowsFrom('t'), "title");
  }

  lemma UserFields()
    ensures FindKey("username") == Absent && FindKey("url") == Absent
  {
    FindNot(RowsFrom('u'), "username");
    FindNot(RowsFrom('u'), "url");
  }

  lemma PasswordField()
    ensures FindKey("password") == Absent
  {
    FindNot(RowsFrom('p'), "password");
  }

  lemma NotesField()
    ensures FindKey("notes") == Absent
  {
    NumpadIsShort();
    FindNot(RowsFrom('n'), "notes");
  }

  lemma OwnFields(name: string)
    requires "s:" <= name
    ensures FindKey(name) == Absent
  {
    assert name[0] == 's' && name[1] == ':';
    FindNot(RowsFrom('s'), name);
  }

  /** The words that are no names of fields. */
  predicate Command(name: string) {
    || "delay=" <= name || name == "delay" || name == "clearfield" || name == "totp" || name == "timeotp"
    || "pickchars" <= name || "t-conv:" <= name || "t-replace-rx:" <= name || "mode=" <= name
    || "beep" <= name || "vkey" <= name || "appactivate" <= name || "c:" <= name
  }

  /** Whatever is neither a key nor a command is taken for a field. */
  lemma OtherNames(name: string)
    requires FindKey(name) == Absent && !Command(name)
    ensures Classify(name) == Attribute
  {
  }

  /** The fields of an entry are neither. */
  lemma FieldNames(name: string)
    requires || name == "title" || name == "username" || name == "password" || name == "url" || name == "notes"
             || "s:" <= name
    ensures FindKey(name) == Absent && !Command(name)
  {
    if name == "title" {
      TitleField();
    } else if name == "username" || name == "url" {
      UserFields();
    } else if name == "password" {
      PasswordField();
    } else if name == "notes" {
      NotesField();
    } else {
      OwnFields(name);
      assert name[0] == 's';
    }
  }

  /** A name of more than one character has only letters and digits, and a key. */
  lemma KeyNamesArePlain(name: string)
    requires FindKey(name).Present? && |name| > 1
    ensures FindKey(name).key != Unknown
    ensures forall i :: 0 <= i < |name| ==> 'a' <= name[i] <= 'z' || '0' <= name[i] <= '9'
  {
    PlainRows(name[0]);
    FoundIsPlain(RowsFrom(name[0]), name);
  }

  predicate Plain(row: Row) {
    row.key != Unknown
    && forall i :: 0 <= i < |row.name| ==> 'a' <= row.name[i] <= 'z' || '0' <= row.name[i] <= '9'
  }

  lemma PlainRows(c: char)
    ensures forall i :: 0 <= i < |RowsFrom(c)| ==> Plain(RowsFrom(c)[i])
  {
    if c == 'f' {
      PlainFunctions();
    } else if c == 'n' {
      PlainNumpad();
    } else if c < 'f' {
      PlainBeforeF(c);
    } else if c < 'n' {
      PlainBeforeN(c);
    } else if c < 's' {
      PlainBeforeS(c);
    } else {
      PlainFromS(c);
    }
  }

  lemma PlainFunctions()
    ensures forall i :: 0 <= i < |RowsFrom('f')| ==> Plain(RowsFrom('f')[i])
  {
    FunctionRow(1);
    forall i | 0 <= i < 16
      ensures Plain(RowsFrom('f')[i])
    {
      FunctionRow(i + 1);
      DecimalIsRead(i + 1);
    }
  }

  lemma PlainNumpad()
    ensures forall i :: 0 <= i < |RowsFrom('n')| ==> Plain(RowsFrom('n')[i])
  {
    NumpadRow(0);
    forall i | 0 < i < 11
      ensures Plain(RowsFrom('n')[i])
    {
      NumpadRow(i - 1);
      DigitIsDigit(i - 1);
    }
  }

  lemma PlainBeforeF(c: char)
    requires c < 'f'
    ensures forall i :: 0 <= i < |RowsFrom(c)| ==> Plain(RowsFrom(c)[i])
  {
  }

  lemma PlainBeforeN(c: char)
    requires 'f' < c < 'n'
    ensures forall i :: 0 <= i < |RowsFrom(c)| ==> Plain(RowsFrom(c)[i])
  {
  }

  lemma PlainBeforeS(c: char)
    requires 'n' < c < 's'
    ensures forall i :: 0 <= i < |RowsFrom(c)| ==> Plain(RowsFrom(c)[i])
  {
  }

  lemma PlainFromS(c: char)
    requires 's' <= c
    ensures forall i :: 0 <= i < |RowsFrom(c)| ==> Plain(RowsFrom(c)[i])
  {
  }

  lemma {:induction false} FoundIsPlain(rows: seq<Row>, name: string)
    requires (forall i :: 0 <= i < |rows| ==> Plain(rows[i])) && Find(rows, name).Present?
    ensures Find(rows, name).key != Unknown && Plain(Row(name, Find(rows, name).key))
  {
    if rows[0].name != name {
      FoundIsPlain(rows[1..], name);
    }
  }
}
