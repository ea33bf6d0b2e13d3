/**
 What a printed line tells about its word: the mark, the code, the address, and the disassembled word.
 */
module UCodeDisasm {
  import opened Prelude
  import opened UCodeCpu
  import opened UCodeImage

  // ----- Hexadecimal numbers -----

  lemma ThreeDigits(n: nat)
    requires n < 0x1000
    ensures Hex(n, 4) == "0" + Hex(n, 3)
  {
    FourDigits(n);
    assert n / 0x1000 == 0;
    var s := ToString16(n);
    assert |s| <= 3 by { ShortDigits(n); }
    assert Repeat('0', 4 - |s|) == "0" + Repeat('0', 3 - |s|);
  }

  lemma ShortDigits(n: nat)
    requires n < 0x1000
    ensures |ToString16(n)| <= 3
  {
    assert |ToString16(n / 16 / 16)| == 1;
    assert |ToString16(n / 16)| <= 2;
  }

  /** Different numbers are printed differently. */
  lemma HexTells(m: nat, n: nat)
    requires m < 0x1_0000 && n < 0x1_0000
    ensures Hex(m, 4) == Hex(n, 4) ==> m == n
    ensures m < 0x1000 && n < 0x1000 && Hex(m, 3) == Hex(n, 3) ==> m == n
  {
    NumberTaken(m, "");
    NumberTaken(n, "");
    if m < 0x1000 && n < 0x1000 {
      ThreeDigits(m);
      ThreeDigits(n);
    }
  }

  lemma HexLengths(n: nat)
    requires n < 0x1_0000
    ensures |Hex(n, 4)| == 4 && (n < 0x1000 ==> |Hex(n, 3)| == 3)
  {
    FourDigits(n);
    if n < 0x1000 { ThreeDigits(n); }
  }

  // ----- Names -----

  lemma {:induction false} NamesFound(words: Names, name: string, word: Word)
    ensures name in NamesOf(words, word) <==> (name, word) in words
  {
    if words != [] {
      NamesFound(words[1..], name, word);
      assert words == [words[0]] + words[1..];
    }
  }

  /** The first name is the one that comes first in the dictionary. */
  lemma {:induction false} FirstName(words: Names, word: Word, i: nat)
    requires i < |words| && words[i].1 == word && forall j :: 0 <= j < i ==> words[j].1 != word
    ensures NamesOf(words, word) != [] && NamesOf(words, word)[0] == words[i].0
  {
    if i > 0 {
      assert forall j :: 0 <= j < i - 1 ==> words[1..][j] == words[j + 1];
      FirstName(words[1..], word, i - 1);
    }
  }

  /** Names are separated by one space. */
  lemma {:induction false} Joined(x: seq<string>, y: seq<string>)
    requires x != [] && y != []
    ensures Join(x + y) == Join(x) + " " + Join(y)
    ensures Join([x[0]]) == x[0]
  {
    assert (x + y)[1..] == x[1..] + y;
    if |x| > 1 {
      Joined(x[1..], y);
      Associates(x[0] + " ", Join(x[1..]), " " + Join(y));
    } else {
      assert x[1..] + y == y;
    }
  }

  /** A word that has a name is shown by the name that comes first, with the EXIT that has been joined to it. */
  lemma NamedWord(code: Word, words: Names, i: nat)
    requires code < 0x1000 && code != 0x021F
    requires i < |words| && words[i].1 == code && forall j :: 0 <= j < i ==> words[j].1 != code
    ensures Disassemble(code, words) == words[i].0
    ensures Disassemble(code + 0x5000, words) == words[i].0 + " EXIT"
  {
    FirstName(words, code, i);
    assert (code + 0x5000) / 0x1000 == 5 && (code + 0x5000) % 0x1000 == code;
  }

  /** A word without a name does not show the EXIT that has been joined to it; with a name it does. */
  lemma ExitLost(code: Word, words: Names)
    requires code < 0x1000 && code != 0x021F
    ensures Disassemble(code + 0x5000, words) == Disassemble(code, words) <==> forall name :: (name, code) !in words
  {
    assert (code + 0x5000) / 0x1000 == 5 && (code + 0x5000) % 0x1000 == code;
    forall name ensures name in NamesOf(words, code) <==> (name, code) in words {
      NamesFound(words, name, code);
    }
    if NamesOf(words, code) != [] {
      var name := NamesOf(words, code)[0];
      assert name in NamesOf(words, code);
      assert |name + " EXIT"| > |name|;
    }
  }

  // ----- Words are told apart -----

  function Condition(kind: nat): string {
    match kind case 0 => "" case 1 => "_ifzero" case 2 => "_ifnz_inc" case _ => "_ifnz_dec"
  }

  function Shape(kind: string, condition: nat, digits: string): string {
    kind + Condition(condition) + "(" + ("0x" + digits) + ")"
  }

  lemma ControlShown(code: Word)
    requires code >= 0x8000
    ensures Disassemble(code, []) ==
            Shape(if code >= 0xC000 then "call" else "jump", code / 0x1000 % 4, Hex(code % 0x1000, 3))
  {
    assert code / 0x4000 % 2 == 1 <==> code >= 0xC000;
  }

  lemma PlainShown(code: Word)
    requires code < 0x8000 && code / 0x1000 != 5 && code != 0x021F
    ensures Disassemble(code, []) == "0x" + Hex(code, 4)
  {
  }

  lemma ShapeAt(kind: string, c: nat, digits: string)
    requires |kind| == 4 && c < 4 && |digits| == 3
    ensures var s, n := Shape(kind, c, digits), |Condition(c)|;
            && |s| == n + 11 && s[..4] == kind && s[n + 7..n + 10] == digits
            && forall i :: 0 <= i < n ==> s[4 + i] == Condition(c)[i]
  {
    PartsAt(kind, Condition(c), digits, Shape(kind, c, digits));
  }

  lemma PartsAt(kind: string, condition: string, digits: string, s: string)
    requires |kind| == 4 && |digits| == 3 && s == kind + condition + "(" + ("0x" + digits) + ")"
    ensures var n := |condition|; |s| == n + 11 && s[..4] == kind && s[n + 7..n + 10] == digits
    ensures forall i :: 0 <= i < |condition| ==> s[4 + i] == condition[i]
  {
  }

  lemma ShapeTells(k: string, c: nat, x: string, l: string, d: nat, y: string)
    requires |k| == 4 && c < 4 && |x| == 3 && |l| == 4 && d < 4 && |y| == 3 && Shape(k, c, x) == Shape(l, d, y)
    ensures k == l && c == d && x == y
  {
    ShapeAt(k, c, x);
    ShapeAt(l, d, y);
    assert Condition(1)[3] == 'z' && Condition(2)[3] == 'n' == Condition(3)[3];
    assert Condition(2)[6] == 'i' && Condition(3)[6] == 'd';
    if c > 0 && d > 0 { assert Condition(c)[3] == Condition(d)[3]; }
    if c > 1 && d > 1 { assert Condition(c)[6] == Condition(d)[6]; }
  }

  lemma ControlTells(a: Word, b: Word)
    requires a >= 0x8000 && b >= 0x8000 && Disassemble(a, []) == Disassemble(b, [])
    ensures a == b
  {
    ControlShown(a);
    ControlShown(b);
    HexLengths(a % 0x1000);
    HexLengths(b % 0x1000);
    ShapeTells(if a >= 0xC000 then "call" else "jump", a / 0x1000 % 4, Hex(a % 0x1000, 3),
               if b >= 0xC000 then "call" else "jump", b / 0x1000 % 4, Hex(b % 0x1000, 3));
    HexTells(a % 0x1000, b % 0x1000);
    assert "call"[0] != "jump"[0];
    SameFields(a, b);
  }

  lemma SameFields(a: Word, b: Word)
    requires a >= 0x8000 && b >= 0x8000 && (a >= 0xC000 <==> b >= 0xC000)
    requires a / 0x1000 % 4 == b / 0x1000 % 4 && a % 0x1000 == b % 0x1000
    ensures a == b
  {
  }

  lemma FirstCharacter(code: Word)
    requires code / 0x1000 != 5
    ensures Disassemble(code, []) != ""
    ensures Disassemble(code, [])[0] ==
            if code == 0x021F then '(' else if code < 0x8000 then '0' else if code < 0xC000 then 'j' else 'c'
  {
    if code >= 0x8000 {
      ControlShown(code);
    } else if code != 0x021F {
      PlainShown(code);
    }
  }

  /** Without names, words that have no EXIT joined to them are told apart. */
  lemma DisassemblyTells(a: Word, b: Word)
    requires a / 0x1000 != 5 && b / 0x1000 != 5
    ensures Disassemble(a, []) == Disassemble(b, []) <==> a == b
  {
    if Disassemble(a, []) == Disassemble(b, []) {
      FirstCharacter(a);
      FirstCharacter(b);
      if a >= 0x8000 {
        ControlTells(a, b);
      } else if a != 0x021F {
        PlainShown(a);
        PlainShown(b);
        assert ("0x" + Hex(a, 4))[2..] == Hex(a, 4) && ("0x" + Hex(b, 4))[2..] == Hex(b, 4);
        HexTells(a, b);
      }
    }
  }

  // ----- Lines -----

  lemma Kept(text: string, rest: string)
    requires text != "" && !White(text[|text| - 1])
    ensures text <= TrimEnd(text + rest)
  {
    var front, last := text[..|text| - 1], text[|text| - 1];
    assert text == front + [last];
    TrimKeeps(front, last, rest);
  }

  lemma {:induction false} NothingTrimmed(s: string)
    requires s != "" && !White(s[|s| - 1])
    ensures TrimEnd(s) == s
  {
  }

  lemma Padding(text: string)
    ensures exists spaces :: PadEnd(text, 24) == text + spaces
  {
    assert PadEnd(text, 24) == text + (if |text| < 24 then Repeat(' ', 24 - |text|) else "");
  }

  function Heading(code: Word, address: nat, marked: bool): string {
    (if marked then ">>> " else "    ") + Hex(code, 4) + " // " + Hex(address, 3) + ": "
  }

  lemma Regroups(m: string, c: string, a: string, text: string, spaces: string, names: string)
    ensures m + c + " //" + (" " + a + ": " + (text + spaces) + names) ==
            (m + c + " // " + a + ": ") + text + (spaces + names)
  {
    assert " //" + " " == " // ";
  }

  lemma LineIs(code: Word, address: nat, words: Names, mark: Option<nat>, text: string, names: string)
    returns (spaces: string)
    requires address < 0x1000 && text == Disassemble(code, words) && names == Join(NamesOf(words, 0xC000 + address))
    ensures Line(code, address, words, mark) ==
            TrimEnd(Heading(code, address, mark == Some(address)) + text + (spaces + names))
  {
    Padding(text);
    spaces :| PadEnd(text, 24) == text + spaces;
    Regroups(Margin(address, mark), Hex(code, 4), Hex(address, 3), text, spaces, names);
  }

  lemma TrimmedTells(heading: string, text: string, spaces: string, names: string, line: string)
    requires text != "" && line == TrimEnd(heading + text + (spaces + names))
    ensures !White(text[|text| - 1]) ==> heading + text <= line
    ensures names != "" && !White(names[|names| - 1]) ==> |line| >= |names| && line[|line| - |names|..] == names
  {
    var all := heading + text + (spaces + names);
    if !White(text[|text| - 1]) { Kept(heading + text, spaces + names); }
    if names != "" && !White(names[|names| - 1]) {
      assert all[|all| - 1] == names[|names| - 1];
      NothingTrimmed(all);
    }
  }

  /**
   A line is marked if it should be, and begins with the code, the address, and the disassembled word; it ends with the
   names of the address.
   */
  lemma LineTells(code: Word, address: nat, words: Names, mark: Option<nat>)
    requires address < 0x1000 && Disassemble(code, words) != ""
    ensures var line, text := Line(code, address, words, mark), Disassemble(code, words);
            var names := Join(NamesOf(words, 0xC000 + address));
            && (!White(text[|text| - 1]) ==> Heading(code, address, mark == Some(address)) + text <= line)
            && (names != "" && !White(names[|names| - 1]) ==> |line| >= |names| && line[|line| - |names|..] == names)
  {
    var text, names := Disassemble(code, words), Join(NamesOf(words, 0xC000 + address));
    var spaces := LineIs(code, address, words, mark, text, names);
    TrimmedTells(Heading(code, address, mark == Some(address)), text, spaces, names, Line(code, address, words, mark));
  }
}
