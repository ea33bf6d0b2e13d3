/**
 Memory images: a program printed as annotated hexadecimal text, and read back.
 */
module UCodeImage {
  import opened Prelude
  import opened UCodeCpu

  /** The dictionary in its order: names and what they stand for. */
  type Names = seq<(string, Word)>

  // ----- Printing -----

  function Digit(n: nat): char
    requires n < 16
  {
    "0123456789abcdef"[n]
  }

  function ToString16(n: nat): string { if n < 16 then [Digit(n)] else ToString16(n / 16) + [Digit(n % 16)] }

  function Repeat(c: char, n: nat): string { seq(n, _ => c) }

  function PadStart(s: string, n: nat): string { if |s| < n then Repeat('0', n - |s|) + s else s }
  function PadEnd(s: string, n: nat): string { if |s| < n then s + Repeat(' ', n - |s|) else s }

  function Hex(n: nat, digits: nat): string { PadStart(ToString16(n), digits) }

  function Join(names: seq<string>): string {
    if names == [] then "" else if |names| == 1 then names[0] else names[0] + " " + Join(names[1..])
  }

  function NamesOf(words: Names, word: Word): seq<string> {
    if words == [] then [] else (if words[0].1 == word then [words[0].0] else []) + NamesOf(words[1..], word)
  }

  function Control(code: Word, words: Names): string {
    var kind := if code / 0x4000 % 2 == 1 then "call" else "jump";
    var test := match code / 0x1000 % 4 case 0 => "" case 1 => "_ifzero" case 2 => "_ifnz_inc" case _ => "_ifnz_dec";
    var labels := NamesOf(words, 0xC000 + code % 0x1000);
    kind + test + "(" + (if labels != [] then labels[0] else "0x" + Hex(code % 0x1000, 3)) + ")"
  }

  function Disassemble(code: Word, words: Names): string {
    if code == 0x021F then "(LIT)"
    else if code == 0x521F then "(CONST)"
    else
      var exit := code / 0x1000 == 5;
      var base: Word := if exit then code % 0x1000 else code;
      if base >= 0x8000 then Control(base, words)
      else
        var names := NamesOf(words, base);
        if names != [] then names[0] + (if exit then " EXIT" else "") else "0x" + Hex(base, 4)
  }

  /** White space and line ends, as ECMAScript has them. */
  predicate White(c: char) {
    c == ' ' || '\U{9}' <= c <= '\U{D}' || c == '\U{A0}' || c == '\U{1680}' || '\U{2000}' <= c <= '\U{200A}'
    || c == '\U{2028}' || c == '\U{2029}' || c == '\U{202F}' || c == '\U{205F}' || c == '\U{3000}' || c == '\U{FEFF}'
  }

  function TrimEnd(s: string): string {
    if s != "" && White(s[|s| - 1]) then TrimEnd(s[..|s| - 1]) else s
  }

  function Title(): string { "  CODE    ADR  DISASM" + Repeat(' ', 18) + "NAMES" + Repeat(' ', 21) }

  function Margin(address: nat, mark: Option<nat>): string { if mark == Some(address) then ">>> " else "    " }

  function Comment(code: Word, address: nat, words: Names): string {
    var names: seq<string> := if address < 0x1000 then NamesOf(words, 0xC000 + address) else [];
    " " + Hex(address, 3) + ": " + PadEnd(Disassemble(code, words), 24) + Join(names)
  }

  /** The code, and a comment with the address, the disassembled word and the names of the address. */
  function Line(code: Word, address: nat, words: Names, mark: Option<nat>): string {
    TrimEnd(Margin(address, mark) + Hex(code, 4) + " //" + Comment(code, address, words))
  }

  function Lines(prog: seq<Word>, address: nat, words: Names, mark: Option<nat>): string {
    if prog == [] then "" else Line(prog[0], address, words, mark) + "\n" + Lines(prog[1..], address + 1, words, mark)
  }

  function Print(prog: seq<Word>, words: Names, mark: Option<nat>): string {
    "/*" + Title() + "*/" + "\n" + Lines(prog, 0, words, mark)
  }

  // ----- What a text means -----

  predicate IsHex(c: char) { '0' <= c <= '9' || 'A' <= c <= 'F' || 'a' <= c <= 'f' }

  function FromHex(c: char): nat
    requires IsHex(c)
  {
    if c <= '9' then (c - '0') as nat else if c <= 'F' then (c - 'A') as nat + 10 else (c - 'a') as nat + 10
  }

  function AfterLine(s: string): string {
    if s == "" then "" else if s[0] == '\n' then s[1..] else AfterLine(s[1..])
  }

  function AfterBlock(s: string): string {
    if s == "" then "" else if s[0] != '*' then AfterBlock(s[1..])
    else if |s| > 1 && s[1] == '/' then s[2..] else AfterBlock(s[1..])
  }

  lemma {:induction false} AfterShorter(s: string)
    ensures |AfterLine(s)| <= |s| && |AfterBlock(s)| <= |s|
  {
    if s != "" { AfterShorter(s[1..]); }
  }

  /**
   From the first hexadecimal digit on that is not in a comment; a slash that begins no comment hides the next
   character.
   */
  function Skip(s: string): (r: string)
    ensures |r| <= |s| && (r != "" ==> IsHex(r[0]))
    decreases |s|
  {
    if s == "" || IsHex(s[0]) then s
    else if s[0] != '/' then Skip(s[1..])
    else if |s| == 1 then ""
    else
      AfterShorter(s[2..]);
      if s[1] == '/' then Skip(AfterLine(s[2..]))
      else if s[1] == '*' then Skip(AfterBlock(s[2..]))
      else Skip(s[2..])
  }

  /** `(num << 4) | digit` in 32 bits. */
  function Shifted(n: int, digit: nat): int
    requires digit < 16
  {
    (n * 16 + 0x8000_0000) % 0x1_0000_0000 - 0x8000_0000 + digit
  }

  /** The value of the digits at the beginning, and what comes after the character that ends them. */
  function Digits(s: string, n: int): (r: (int, string))
    ensures |r.1| <= |s| && (s != "" ==> |r.1| < |s|)
    decreases |s|
  {
    if s == "" then (n, "")
    else if !IsHex(s[0]) then (n, s[1..])
    else (FromHexBelow(s[0]); Digits(s[1..], Shifted(n, FromHex(s[0]))))
  }

  lemma FromHexBelow(c: char)
    requires IsHex(c)
    ensures FromHex(c) < 16
  {
  }

  /** The digits are these 22 characters, and have these values. */
  lemma HexDigits(c: char)
    ensures IsHex(c) <==> c in "0123456789abcdef" || c in "0123456789ABCDEF"
    ensures forall d :: 0 <= d < 16 && (c == "0123456789abcdef"[d] || c == "0123456789ABCDEF"[d]) ==> FromHex(c) == d
  {
  }

  /** Numbers are kept in 32 bits with a sign. */
  lemma ShiftedWraps(n: int, digit: nat)
    requires digit < 16
    ensures -0x8000_0000 <= Shifted(n, digit) < 0x8000_0000 && (Shifted(n, digit) - n * 16 - digit) % 0x1_0000_0000 == 0
  {
  }

  function Numbers(s: string): seq<int>
    decreases |s|
  {
    var t := Skip(s);
    if t == "" then [] else var (n, rest) := Digits(t, 0); [n] + Numbers(rest)
  }

  // ----- Upper and lower case -----

  function Upper(s: string): string {
    if s == "" then "" else [if 'a' <= s[0] <= 'f' then s[0] - 'a' + 'A' else s[0]] + Upper(s[1..])
  }

  lemma {:induction false} AfterUpper(s: string)
    ensures AfterLine(Upper(s)) == Upper(AfterLine(s)) && AfterBlock(Upper(s)) == Upper(AfterBlock(s))
  {
    if s != "" {
      assert Upper(s)[1..] == Upper(s[1..]);
      if |s| > 1 { assert Upper(s[1..])[1..] == Upper(s[2..]) && Upper(s)[2..] == Upper(s[2..]); }
      AfterUpper(s[1..]);
    }
  }

  lemma {:induction false} SkipUpper(s: string)
    ensures Skip(Upper(s)) == Upper(Skip(s))
    decreases |s|
  {
    if s != "" && !IsHex(s[0]) {
      assert Upper(s)[1..] == Upper(s[1..]);
      if s[0] != '/' {
        SkipUpper(s[1..]);
      } else if |s| > 1 {
        assert Upper(s[1..])[1..] == Upper(s[2..]) && Upper(s)[2..] == Upper(s[2..]);
        AfterUpper(s[2..]);
        AfterShorter(s[2..]);
        SkipUpper(if s[1] == '/' then AfterLine(s[2..]) else if s[1] == '*' then AfterBlock(s[2..]) else s[2..]);
      }
    }
  }

  lemma {:induction false} DigitsUpper(s: string, n: int)
    ensures Digits(Upper(s), n) == (Digits(s, n).0, Upper(Digits(s, n).1))
    decreases |s|
  {
    if s != "" {
      assert Upper(s)[1..] == Upper(s[1..]);
      if IsHex(s[0]) { DigitsUpper(s[1..], Shifted(n, FromHex(s[0]))); }
    }
  }

  /** The digits can be in upper case. */
  lemma {:induction false} CaseDoesNotMatter(s: string)
    ensures Numbers(Upper(s)) == Numbers(s)
    decreases |s|
  {
    SkipUpper(s);
    var t := Skip(s);
    if t != "" {
      DigitsUpper(t, 0);
      CaseDoesNotMatter(Digits(t, 0).1);
    }
  }

  // ----- Reading -----

  class Stream {
    const text: string
    var pos: nat
    var line: nat

    constructor (text: string)
      ensures this.text == text && pos == 0 && line == 1
    {
      this.text, pos, line := text, 0, 1;
    }

    ghost function Rest(): string
      reads this
    {
      if pos <= |text| then text[pos..] else ""
    }

    method NextChar() returns (c: Option<char>)
      modifies this
      ensures if old(Rest()) == "" then c == None && Rest() == ""
              else c == Some(old(Rest())[0]) && Rest() == old(Rest())[1..]
      ensures With(c, Rest()) == old(Rest())
    {
      if pos >= |text| { return None; }
      c := Some(text[pos]);
      if text[pos] == '\n' { line := line + 1; }
      pos := pos + 1;
    }
  }

  /** The text with the character that has just been read. */
  function With(c: Option<char>, rest: string): string { if c.Some? then [c.value] + rest else "" }

  method SkipLine(stream: Stream)
    modifies stream
    ensures stream.Rest() == AfterLine(old(stream.Rest()))
  {
    var cp := stream.NextChar();
    while cp.Some? && cp.value != '\n'
      invariant AfterLine(With(cp, stream.Rest())) == AfterLine(old(stream.Rest()))
      invariant cp.None? ==> stream.Rest() == ""
      decreases |With(cp, stream.Rest())|
    {
      assert With(cp, stream.Rest())[1..] == stream.Rest();
      cp := stream.NextChar();
    }
    if cp.Some? { assert With(cp, stream.Rest())[1..] == stream.Rest(); }
  }

  method SkipBlock(stream: Stream)
    modifies stream
    ensures stream.Rest() == AfterBlock(old(stream.Rest()))
  {
    var cp := stream.NextChar();
    while true
      invariant AfterBlock(With(cp, stream.Rest())) == AfterBlock(old(stream.Rest()))
      invariant cp.None? ==> stream.Rest() == ""
      decreases |With(cp, stream.Rest())|
    {
      while cp.Some? && cp.value != '*'
        invariant AfterBlock(With(cp, stream.Rest())) == AfterBlock(old(stream.Rest()))
        invariant cp.None? ==> stream.Rest() == ""
        decreases |With(cp, stream.Rest())|
      {
        assert With(cp, stream.Rest())[1..] == stream.Rest();
        cp := stream.NextChar();
      }
      ghost var before, star := stream.Rest(), cp;
      cp := stream.NextChar();
      if star.Some? { assert With(star, before)[1..] == before == With(cp, stream.Rest()); }
      if cp == None || cp == Some('/') { break; }
    }
  }

  /** After a slash: a comment is skipped, and otherwise the next character. */
  method SkipComment(stream: Stream)
    modifies stream
    ensures Skip(stream.Rest()) == Skip("/" + old(stream.Rest())) && |stream.Rest()| <= |old(stream.Rest())|
  {
    ghost var s := "/" + stream.Rest();
    assert s[1..] == stream.Rest();
    var cp := stream.NextChar();
    assert |s| > 1 ==> s[2..] == stream.Rest();
    AfterShorter(stream.Rest());
    if cp == Some('/') {
      SkipLine(stream);
    } else if cp == Some('*') {
      SkipBlock(stream);
    }
  }

  method SkipToDigit(stream: Stream) returns (cp: Option<char>)
    modifies stream
    ensures With(cp, stream.Rest()) == Skip(old(stream.Rest())) && (cp.Some? ==> IsHex(cp.value))
  {
    cp := stream.NextChar();
    while cp.Some? && !IsHex(cp.value)
      invariant Skip(With(cp, stream.Rest())) == Skip(old(stream.Rest()))
      invariant cp.None? ==> stream.Rest() == ""
      decreases |With(cp, stream.Rest())|
    {
      assert With(cp, stream.Rest())[1..] == stream.Rest();
      if cp.value == '/' {
        assert With(cp, stream.Rest()) == "/" + stream.Rest();
        SkipComment(stream);
      }
      cp := stream.NextChar();
    }
  }

  method ParseHex(stream: Stream) returns (num: Option<int>)
    modifies stream
    ensures var t := Skip(old(stream.Rest()));
            if t == "" then num == None else num == Some(Digits(t, 0).0) && stream.Rest() == Digits(t, 0).1
  {
    var cp := SkipToDigit(stream);
    if cp.None? { return None; }
    ghost var t := With(cp, stream.Rest());
    var n := 0;
    while cp.Some? && IsHex(cp.value)
      invariant Digits(With(cp, stream.Rest()), n) == Digits(t, 0)
      invariant cp.None? ==> stream.Rest() == ""
      decreases |With(cp, stream.Rest())|
    {
      FromHexBelow(cp.value);
      n := Shifted(n, FromHex(cp.value));
      assert With(cp, stream.Rest())[1..] == stream.Rest();
      cp := stream.NextChar();
    }
    if cp.Some? { assert With(cp, stream.Rest())[1..] == stream.Rest(); }
    num := Some(n);
  }

  method ParseMemh(text: string) returns (prog: seq<int>)
    ensures prog == Numbers(text)
  {
    var stream := new Stream(text);
    prog := [];
    var going := true;
    while going
      invariant prog + (if going then Numbers(stream.Rest()) else []) == Numbers(text)
      decreases going, |stream.Rest()|
    {
      ghost var rest := stream.Rest();
      var num := ParseHex(stream);
      if num.None? {
        going := false;
      } else {
        Associates(prog, [num.value], Numbers(stream.Rest()));
        prog := prog + [num.value];
      }
    }
  }

  // ----- Round trip -----

  predicate OneLine(s: string) { '\n' !in s }

  /** No name has a line break in it. */
  predicate Proper(words: Names) { forall w <- words :: OneLine(w.0) }

  lemma SumOneLine(x: string, y: string)
    ensures OneLine(x + y) <==> OneLine(x) && OneLine(y)
  {
    assert OneLine(x + y) ==> forall i :: 0 <= i < |x| ==> (x + y)[i] == x[i];
  }

  lemma PadOneLine(s: string, n: nat)
    requires OneLine(s)
    ensures OneLine(PadStart(s, n)) && OneLine(PadEnd(s, n))
  {
  }

  lemma {:induction false} ToStringOneLine(n: nat)
    ensures OneLine(ToString16(n))
  {
    if n >= 16 {
      ToStringOneLine(n / 16);
      SumOneLine(ToString16(n / 16), [Digit(n % 16)]);
    }
  }

  lemma HexOneLine(n: nat, digits: nat)
    ensures OneLine(Hex(n, digits))
  {
    ToStringOneLine(n);
    PadOneLine(ToString16(n), digits);
  }

  lemma {:induction false} NamesOneLine(words: Names, word: Word)
    requires Proper(words)
    ensures forall s <- NamesOf(words, word) :: OneLine(s)
  {
    if words != [] { NamesOneLine(words[1..], word); }
  }

  lemma {:induction false} JoinOneLine(names: seq<string>)
    requires forall s <- names :: OneLine(s)
    ensures OneLine(Join(names))
  {
    if |names| > 1 {
      JoinOneLine(names[1..]);
      SumOneLine(names[0], " ");
      SumOneLine(names[0] + " ", Join(names[1..]));
    }
  }

  lemma FiveOneLine(v: string, w: string, x: string, y: string, z: string)
    requires OneLine(v) && OneLine(w) && OneLine(x) && OneLine(y) && OneLine(z)
    ensures OneLine(v + w) && OneLine(v + w + x) && OneLine(v + w + x + y) && OneLine(v + w + x + y + z)
  {
    SumOneLine(v, w);
    SumOneLine(v + w, x);
    SumOneLine(v + w + x, y);
    SumOneLine(v + w + x + y, z);
  }

  lemma ControlOneLine(code: Word, words: Names)
    requires Proper(words)
    ensures OneLine(Control(code, words))
  {
    var kind := if code / 0x4000 % 2 == 1 then "call" else "jump";
    var test := match code / 0x1000 % 4 case 0 => "" case 1 => "_ifzero" case 2 => "_ifnz_inc" case _ => "_ifnz_dec";
    var labels := NamesOf(words, 0xC000 + code % 0x1000);
    var target := if labels != [] then labels[0] else "0x" + Hex(code % 0x1000, 3);
    NamesOneLine(words, 0xC000 + code % 0x1000);
    HexOneLine(code % 0x1000, 3);
    SumOneLine("0x", Hex(code % 0x1000, 3));
    FiveOneLine(kind, test, "(", target, ")");
  }

  lemma DisassembledOneLine(code: Word, words: Names)
    requires Proper(words)
    ensures OneLine(Disassemble(code, words))
  {
    var exit := code / 0x1000 == 5;
    var base: Word := if exit then code % 0x1000 else code;
    if base >= 0x8000 {
      ControlOneLine(base, words);
    } else {
      var names := NamesOf(words, base);
      NamesOneLine(words, base);
      HexOneLine(base, 4);
      SumOneLine("0x", Hex(base, 4));
      if names != [] { SumOneLine(names[0], if exit then " EXIT" else ""); }
    }
  }

  /** Trimming leaves everything up to a character that is not white. */
  lemma {:induction false} TrimKeeps(x: string, a: char, y: string)
    requires !White(a)
    ensures exists n :: 0 <= n <= |y| && TrimEnd(x + [a] + y) == x + [a] + y[..n]
    decreases |y|
  {
    var s := x + [a] + y;
    if y != "" && White(y[|y| - 1]) {
      var y1 := y[..|y| - 1];
      assert s[..|s| - 1] == x + [a] + y1;
      TrimKeeps(x, a, y1);
      var n :| 0 <= n <= |y1| && TrimEnd(x + [a] + y1) == x + [a] + y1[..n];
      assert y1[..n] == y[..n];
    } else {
      assert y[..|y|] == y;
    }
  }

  lemma CommentOneLine(code: Word, address: nat, words: Names)
    requires Proper(words)
    ensures OneLine(Comment(code, address, words))
  {
    var names: seq<string> := if address < 0x1000 then NamesOf(words, 0xC000 + address) else [];
    HexOneLine(address, 3);
    DisassembledOneLine(code, words);
    PadOneLine(Disassemble(code, words), 24);
    if address < 0x1000 { NamesOneLine(words, 0xC000 + address); }
    JoinOneLine(names);
    FiveOneLine(" ", Hex(address, 3), ": ", PadEnd(Disassemble(code, words), 24), Join(names));
  }

  /** Trimming a line shortens its comment at most. */
  lemma TrimmedLine(front: string, comment: string) returns (kept: string)
    requires OneLine(comment)
    ensures TrimEnd(front + " //" + comment) == front + " //" + kept && OneLine(kept)
  {
    var x := front + " /";
    assert x + ['/'] == front + " //";
    TrimKeeps(x, '/', comment);
    var n :| 0 <= n <= |comment| && TrimEnd(x + ['/'] + comment) == x + ['/'] + comment[..n];
    kept := comment[..n];
  }

  /** A line is a margin, the code, a blank, and a comment that ends with it. */
  lemma LineShape(code: Word, address: nat, words: Names, mark: Option<nat>) returns (comment: string)
    requires Proper(words)
    ensures Line(code, address, words, mark) == Margin(address, mark) + Hex(code, 4) + " //" + comment
    ensures OneLine(comment)
  {
    CommentOneLine(code, address, words);
    comment := TrimmedLine(Margin(address, mark) + Hex(code, 4), Comment(code, address, words));
  }

  lemma {:induction false} AfterLineEnds(x: string, y: string)
    requires OneLine(x)
    ensures AfterLine(x + "\n" + y) == y
  {
    var s := x + "\n" + y;
    if x == "" {
      assert s[1..] == y;
    } else {
      assert s[1..] == x[1..] + "\n" + y;
      AfterLineEnds(x[1..], y);
    }
  }

  lemma {:induction false} AfterBlockEnds(x: string, y: string)
    requires '*' !in x
    ensures AfterBlock(x + "*/" + y) == y
  {
    var s := x + "*/" + y;
    if x == "" {
      assert s[2..] == y;
    } else {
      assert s[1..] == x[1..] + "*/" + y;
      AfterBlockEnds(x[1..], y);
    }
  }

  /** Characters that mean nothing. */
  lemma {:induction false} SkipMargin(x: string, y: string)
    requires forall c <- x :: !IsHex(c) && c != '/'
    ensures Skip(x + y) == Skip(y)
  {
    if x == "" {
      assert x + y == y;
    } else {
      assert (x + y)[1..] == x[1..] + y;
      SkipMargin(x[1..], y);
    }
  }

  lemma DigitIsHex(n: nat)
    requires n < 16
    ensures IsHex(Digit(n)) && FromHex(Digit(n)) == n
  {
  }

  lemma LastDigit(m: nat, d: nat)
    requires m > 0 && d < 16
    ensures ToString16(m * 16 + d) == ToString16(m) + [Digit(d)]
  {
    assert (m * 16 + d) / 16 == m && (m * 16 + d) % 16 == d;
  }

  /** The digits without the zeros in front; of zero, the last. */
  function Shown(a: nat, b: nat, c: nat, d: nat): string
    requires a < 16 && b < 16 && c < 16 && d < 16
  {
    if a > 0 then [Digit(a), Digit(b), Digit(c), Digit(d)]
    else if b > 0 then [Digit(b), Digit(c), Digit(d)]
    else if c > 0 then [Digit(c), Digit(d)]
    else [Digit(d)]
  }

  lemma ShownNext(a: nat, b: nat, c: nat, d: nat, m: nat)
    requires a < 16 && b < 16 && c < 16 && d < 16
    requires ToString16(m) == Shown(0, a, b, c) && (m == 0 <==> a == 0 && b == 0 && c == 0)
    ensures ToString16(m * 16 + d) == Shown(a, b, c, d)
  {
    if m > 0 { LastDigit(m, d); }
  }

  lemma TwoShown(a: nat, b: nat, x: nat)
    requires a < 16 && b < 16 && x == a * 16 + b
    ensures ToString16(x) == Shown(0, 0, a, b)
  {
    FirstShown(a);
    ShownNext(0, 0, a, b, a);
  }

  lemma ThreeShown(a: nat, b: nat, c: nat, x: nat, y: nat)
    requires a < 16 && b < 16 && c < 16 && x == a * 16 + b && y == x * 16 + c
    ensures ToString16(y) == Shown(0, a, b, c)
  {
    TwoShown(a, b, x);
    ShownNext(0, a, b, c, x);
  }

  lemma AllShown(a: nat, b: nat, c: nat, d: nat, x: nat, y: nat)
    requires a < 16 && b < 16 && c < 16 && d < 16 && x == a * 16 + b && y == x * 16 + c
    ensures ToString16(y * 16 + d) == Shown(a, b, c, d)
  {
    ThreeShown(a, b, c, x, y);
    ShownNext(a, b, c, d, y);
  }

  lemma FirstShown(a: nat)
    requires a < 16
    ensures ToString16(a) == Shown(0, 0, 0, a)
  {
  }

  lemma Padded(a: nat, b: nat, c: nat, d: nat)
    requires a < 16 && b < 16 && c < 16 && d < 16
    ensures PadStart(Shown(a, b, c, d), 4) == [Digit(a), Digit(b), Digit(c), Digit(d)]
  {
    assert Digit(0) == '0';
  }

  lemma DigitFields(n: nat)
    requires n < 0x1_0000
    ensures n / 0x1000 < 16 && n / 0x100 == n / 0x1000 * 16 + n / 0x100 % 16
    ensures n / 0x10 == n / 0x100 * 16 + n / 0x10 % 16 && n == n / 0x10 * 16 + n % 16
  {
  }

  /** A number of 16 bits is printed in four digits. */
  lemma FourDigits(n: nat)
    requires n < 0x1_0000
    ensures Hex(n, 4) == [Digit(n / 0x1000), Digit(n / 0x100 % 16), Digit(n / 0x10 % 16), Digit(n % 16)]
  {
    DigitFields(n);
    AllShown(n / 0x1000, n / 0x100 % 16, n / 0x10 % 16, n % 16, n / 0x100, n / 0x10);
    Padded(n / 0x1000, n / 0x100 % 16, n / 0x10 % 16, n % 16);
  }

  lemma DigitTaken(n: nat, d: nat, rest: string)
    requires d < 16 && n < 0x1000
    ensures Digits([Digit(d)] + rest, n) == Digits(rest, n * 16 + d)
  {
    DigitIsHex(d);
    assert ([Digit(d)] + rest)[1..] == rest;
  }

  lemma FourTaken(a: nat, b: nat, c: nat, d: nat, rest: string)
    requires a < 16 && b < 16 && c < 16 && d < 16
    ensures Digits([Digit(a), Digit(b), Digit(c), Digit(d)] + rest, 0) == Digits(rest, ((a * 16 + b) * 16 + c) * 16 + d)
  {
    var r3 := [Digit(d)] + rest;
    var r2 := [Digit(c)] + r3;
    var r1 := [Digit(b)] + r2;
    assert [Digit(a), Digit(b), Digit(c), Digit(d)] + rest == [Digit(a)] + r1;
    var x := a * 16 + b;
    DigitTaken(0, a, r1);
    DigitTaken(a, b, r2);
    DigitTaken(x, c, r3);
    DigitTaken(x * 16 + c, d, rest);
  }

  lemma FourParts(n: nat)
    ensures ((n / 0x1000 * 16 + n / 0x100 % 16) * 16 + n / 0x10 % 16) * 16 + n % 16 == n
  {
    assert n / 0x1000 == n / 0x100 / 16 && n / 0x100 == n / 0x10 / 16;
  }

  lemma NumberTaken(n: nat, rest: string)
    requires n < 0x1_0000
    ensures Digits(Hex(n, 4) + " " + rest, 0) == (n, rest) && Skip(Hex(n, 4) + " " + rest) == Hex(n, 4) + " " + rest
  {
    var tail := " " + rest;
    FourDigits(n);
    Associates(Hex(n, 4), " ", rest);
    FourTaken(n / 0x1000, n / 0x100 % 16, n / 0x10 % 16, n % 16, tail);
    FourParts(n);
    assert tail[1..] == rest && !IsHex(tail[0]);
    DigitIsHex(n / 0x1000);
  }

  lemma CommentSkipped(comment: string, rest: string)
    requires OneLine(comment)
    ensures Skip("//" + comment + "\n" + rest) == Skip(rest)
  {
    var s := "//" + comment + "\n" + rest;
    assert s[2..] == comment + "\n" + rest;
    AfterLineEnds(comment, rest);
  }

  lemma NumbersBySkip(s: string, t: string)
    requires Skip(s) == Skip(t)
    ensures Numbers(s) == Numbers(t)
  {
  }

  /** A line is read as its code. */
  lemma LineRead(code: Word, margin: string, comment: string, rest: string)
    requires OneLine(comment) && forall c <- margin :: !IsHex(c) && c != '/'
    ensures Numbers(margin + Hex(code, 4) + " //" + comment + "\n" + rest) == [code as int] + Numbers(rest)
  {
    var after := "//" + comment + "\n" + rest;
    var s := margin + Hex(code, 4) + " //" + comment + "\n" + rest;
    assert s == margin + (Hex(code, 4) + " " + after);
    SkipMargin(margin, Hex(code, 4) + " " + after);
    NumberTaken(code, after);
    CommentSkipped(comment, rest);
    NumbersBySkip(after, rest);
  }

  lemma {:induction false} LinesRead(prog: seq<Word>, address: nat, words: Names, mark: Option<nat>)
    requires Proper(words)
    ensures Numbers(Lines(prog, address, words, mark)) == prog
    decreases |prog|
  {
    if prog != [] {
      FirstLineRead(prog, address, words, mark);
      LinesRead(prog[1..], address + 1, words, mark);
      assert prog == [prog[0]] + prog[1..];
    }
  }

  lemma FirstLineRead(prog: seq<Word>, address: nat, words: Names, mark: Option<nat>)
    requires Proper(words) && prog != []
    ensures Numbers(Lines(prog, address, words, mark)) ==
            [prog[0] as int] + Numbers(Lines(prog[1..], address + 1, words, mark))
  {
    var comment := LineShape(prog[0], address, words, mark);
    LineRead(prog[0], Margin(address, mark), comment, Lines(prog[1..], address + 1, words, mark));
  }

  /** What has been printed is read back, whatever the dictionary and the mark, through the header and the comments. */
  lemma ImageRoundTrip(prog: seq<Word>, words: Names, mark: Option<nat>)
    requires Proper(words)
    ensures Numbers(Print(prog, words, mark)) == prog
  {
    var rest := Lines(prog, 0, words, mark);
    TitleClean();
    HeaderSkipped(Title(), rest);
    LinesRead(prog, 0, words, mark);
    NumbersBySkip(Print(prog, words, mark), rest);
  }

  lemma TitleClean()
    ensures '*' !in Title()
  {
  }

  lemma HeaderSkipped(title: string, rest: string)
    requires '*' !in title
    ensures Skip("/*" + title + "*/" + "\n" + rest) == Skip(rest)
  {
    var s, after := "/*" + title + "*/" + "\n" + rest, "\n" + rest;
    assert s[2..] == title + "*/" + after;
    AfterBlockEnds(title, after);
    assert after[1..] == rest;
  }

  method PrintAndParse(prog: seq<Word>, words: Names, mark: Option<nat>) returns (image: seq<int>)
    requires Proper(words)
    ensures image == prog
  {
    ImageRoundTrip(prog, words, mark);
    image := ParseMemh(Print(prog, words, mark));
  }
}
