/** The option %q of string.format (addquoted, lstrlib.c) and the string literals of the lexer (read_string, llex.c):
    the literal that %q writes is read back as the bytes that were quoted. */
module Quoting {
  import opened Limits

  type Byte = x: int | 0 <= x < 256

  const EOZ := -1  // no byte: the input has ended

  const NUL: Byte := 0
  const NEWLINE: Byte := 10
  const RETURN: Byte := 13
  const QUOTE: Byte := 34
  const BACKSLASH: Byte := 92

  datatype LexError = UnfinishedString | UnfinishedAtEnd | EscapeTooLarge | TooManyLines

  /** The value of a literal, what follows it, and the line in which it ends. */
  datatype Scanned = Done(value: seq<Byte>, rest: seq<Byte>, line: nat) | Fail(error: LexError)

  // ----- string literals -----

  predicate IsDigit(c: int) {
    48 <= c <= 57
  }

  predicate IsNewline(c: int) {
    c == NEWLINE as int || c == RETURN as int
  }

  /** The control character that the letter after a backslash stands for. */
  function Control(c: int): int {
    if c == 97 then 7          // \a
    else if c == 98 then 8     // \b
    else if c == 102 then 12   // \f
    else if c == 110 then 10   // \n
    else if c == 114 then 13   // \r
    else if c == 116 then 9    // \t
    else if c == 118 then 11   // \v
    else EOZ
  }

  /** How many of the next bytes are the digits of an escape: at most three. */
  function Digits(t: seq<Byte>): (n: nat)
    ensures n <= 3 && n <= |t| && (forall i :: 0 <= i < n ==> IsDigit(t[i]))
    ensures n < 3 && n < |t| ==> !IsDigit(t[n])
  {
    if |t| == 0 || !IsDigit(t[0]) then 0
    else if |t| == 1 || !IsDigit(t[1]) then 1
    else if |t| == 2 || !IsDigit(t[2]) then 2
    else 3
  }

  function Decimal(t: seq<Byte>, n: nat): (v: nat)
    requires n <= |t| && forall i :: 0 <= i < n ==> IsDigit(t[i])
  {
    if n == 0 then 0 else assert IsDigit(t[n-1]); 10 * Decimal(t, n - 1) + (t[n-1] as int - 48)
  }

  /** What is left after a line break: \n\r and \r\n are one. */
  function AfterNewline(t: seq<Byte>): (r: seq<Byte>)
    requires t != []
    ensures |r| < |t|
  {
    if |t| > 1 && IsNewline(t[1]) && t[1] != t[0] then t[2..] else t[1..]
  }

  /** A literal, after its opening delimiter. */
  function Literal(del: Byte, t: seq<Byte>, line: nat): Scanned
    decreases |t|
  {
    if t == [] then Fail(UnfinishedAtEnd)
    else if t[0] == del then Done([], t[1..], line)
    else if IsNewline(t[0]) then Fail(UnfinishedString)
    else if t[0] != BACKSLASH then Prefix([t[0]], Literal(del, t[1..], line))
    else if |t| == 1 then Fail(UnfinishedAtEnd)
    else if Control(t[1]) != EOZ then Prefix([Control(t[1])], Literal(del, t[2..], line))
    else if IsNewline(t[1]) then
      if line + 1 >= MAX_INT then Fail(TooManyLines)
      else Prefix([NEWLINE], Literal(del, AfterNewline(t[1..]), line + 1))
    else if !IsDigit(t[1]) then Prefix([t[1]], Literal(del, t[2..], line))
    else
      var n := Digits(t[1..]);
      if Decimal(t[1..], n) > 255 then Fail(EscapeTooLarge)
      else Prefix([Decimal(t[1..], n)], Literal(del, t[1+n..], line))
  }

  /** What follows a backslash. */
  lemma EscapeCases(del: Byte, t: seq<Byte>, line: nat)
    requires t != [] && t[0] == BACKSLASH && del != BACKSLASH
    ensures Literal(del, t, line) ==
            if |t| == 1 then Fail(UnfinishedAtEnd)
            else if Control(t[1]) != EOZ then Prefix([Control(t[1])], Literal(del, t[1..][1..], line))
            else if IsNewline(t[1]) then
              if line + 1 >= MAX_INT then Fail(TooManyLines)
              else Prefix([NEWLINE], Literal(del, AfterNewline(t[1..]), line + 1))
            else if !IsDigit(t[1]) then Prefix([t[1]], Literal(del, t[1..][1..], line))
            else if Decimal(t[1..], Digits(t[1..])) > 255 then Fail(EscapeTooLarge)
            else Prefix([Decimal(t[1..], Digits(t[1..]))], Literal(del, t[1..][Digits(t[1..])..], line))
  {
    if |t| > 1 {
      assert t[1..][1..] == t[2..] && t[1..][Digits(t[1..])..] == t[1+Digits(t[1..])..];
    }
  }

  function Prefix(p: seq<Byte>, r: Scanned): Scanned {
    if r.Done? then r.(value := p + r.value) else r
  }

  // ----- %q -----

  function QuotedByte(c: Byte): seq<Byte> {
    if c == QUOTE || c == BACKSLASH || c == NEWLINE then [BACKSLASH, c]
    else if c == RETURN then [BACKSLASH, 114]
    else if c == NUL then [BACKSLASH, 48, 48, 48]
    else [c]
  }

  function QuotedBytes(s: seq<Byte>): seq<Byte> {
    if s == [] then [] else QuotedByte(s[0]) + QuotedBytes(s[1..])
  }

  function Quoted(s: seq<Byte>): seq<Byte> {
    [QUOTE] + QuotedBytes(s) + [QUOTE]
  }

  function Newlines(s: seq<Byte>): nat {
    if s == [] then 0 else (if s[0] == NEWLINE then 1 else 0) + Newlines(s[1..])
  }

  /** Three digits, whatever follows. */
  lemma NulDigits(t: seq<Byte>, tail: seq<Byte>)
    requires t == [48, 48, 48] + tail
    ensures Digits(t) == 3 && Decimal(t, 3) == 0
  {
    assert t[0] == 48 && t[1] == 48 && t[2] == 48;
    assert Digits(t) == 3;
    assert Decimal(t, 0) == 0;
    assert Decimal(t, 1) == 0;
    assert Decimal(t, 2) == 0;
    assert Decimal(t, 3) == 0;
  }

  /** One byte, quoted, is read back. */
  lemma ByteRoundTrip(c: Byte, tail: seq<Byte>, line: nat)
    requires line < MAX_INT && tail != [] && !IsNewline(tail[0])
    ensures Literal(QUOTE, QuotedByte(c) + tail, line) ==
            if c != NEWLINE then Prefix([c], Literal(QUOTE, tail, line))
            else if line + 1 < MAX_INT then Prefix([c], Literal(QUOTE, tail, line + 1))
            else Fail(TooManyLines)
  {
    var t := QuotedByte(c) + tail;
    if c == NUL {
      NulDigits(t[1..], tail);
      assert t[1..] == [48, 48, 48] + tail;
      assert t[4..] == tail;
    } else if c == NEWLINE {
      assert t[1..] == [NEWLINE] + tail && AfterNewline(t[1..]) == tail;
    } else if |QuotedByte(c)| == 1 {
      assert t[1..] == tail;
    } else {
      assert t[2..] == tail;
    }
  }

  /** Every byte string, quoted, is read back, up to just after the closing quote, unless the lines of the chunk cannot
      be counted. */
  lemma {:induction false} RoundTrip(s: seq<Byte>, rest: seq<Byte>, line: nat)
    requires line < MAX_INT
    ensures Literal(QUOTE, QuotedBytes(s) + [QUOTE] + rest, line) ==
            if line + Newlines(s) < MAX_INT then Done(s, rest, line + Newlines(s)) else Fail(TooManyLines)
  {
    hide QuotedByte;
    var t := QuotedBytes(s) + [QUOTE] + rest;
    if s == [] {
      assert t[1..] == rest;
    } else {
      var tail := QuotedBytes(s[1..]) + [QUOTE] + rest;
      assert t == QuotedByte(s[0]) + tail;
      assert s == [s[0]] + s[1..];
      NotNewline(s[1..], rest);
      hide Literal;
      ByteRoundTrip(s[0], tail, line);
      if s[0] != NEWLINE || line + 1 < MAX_INT {
        RoundTrip(s[1..], rest, if s[0] == NEWLINE then line + 1 else line);
      }
    }
  }

  /** Quoted bytes never start with a line break, which an escaped newline before them would take in. */
  lemma NotNewline(s: seq<Byte>, rest: seq<Byte>)
    ensures !IsNewline((QuotedBytes(s) + [QUOTE] + rest)[0])
  {
  }

  /** One round of addquoted */
  method AddByte(c: Byte, b0: seq<Byte>) returns (b: seq<Byte>)
    ensures b == b0 + QuotedByte(c)
  {
    if c == QUOTE || c == BACKSLASH || c == NEWLINE {
      b := b0 + [BACKSLASH];
      b := b + [c];
    } else if c == RETURN {
      b := b0 + [BACKSLASH, 114];
    } else if c == NUL {
      b := b0 + [BACKSLASH, 48, 48, 48];
    } else {
      b := b0 + [c];
    }
  }

  /** addquoted */
  method AddQuoted(s: seq<Byte>) returns (b: seq<Byte>)
    ensures b == Quoted(s)
  {
    hide QuotedByte;
    b := [QUOTE];
    var i := 0;
    while i < |s|
      invariant 0 <= i <= |s| && b + QuotedBytes(s[i..]) == [QUOTE] + QuotedBytes(s)
    {
      ghost var b0 := b;
      b := AddByte(s[i], b);
      assert s[i..][0] == s[i] && s[i..][1..] == s[i+1..];
      assert b0 + QuotedBytes(s[i..]) == b + QuotedBytes(s[i+1..]);
      i := i + 1;
    }
    b := b + [QUOTE];
  }

  // ----- the lexer -----

  class LexState {
    var current: int        // a byte, or EOZ
    var z: seq<Byte>        // the bytes after it
    var buff: seq<Byte>     // the token so far, with its opening delimiter
    var linenumber: nat     // lines are counted to MAX_INT

    predicate Valid()
      reads this
    {
      EOZ <= current < 256 && (current == EOZ ==> z == [])
    }

    /** The input from the current character on. */
    function Input(): seq<Byte>
      reads this
      requires Valid()
    {
      if current == EOZ then [] else [current] + z
    }

    method Next()
      requires Valid()
      modifies this`current, this`z
      ensures Valid() && Input() == if old(Input()) == [] then [] else old(Input())[1..]
    {
      if z == [] {
        current := EOZ;
      } else {
        current, z := z[0], z[1..];
      }
    }

    method SaveAndNext()
      requires Valid() && current != EOZ
      modifies this`current, this`z, this`buff
      ensures Valid() && Input() == old(Input())[1..] && buff == old(buff) + [old(Input())[0]]
    {
      buff := buff + [current];
      Next();
    }

    /** inclinenumber: false if it raises an error */
    method IncLineNumber() returns (ok: bool)
      requires Valid() && IsNewline(current) && linenumber < MAX_INT
      modifies this`current, this`z, this`linenumber
      ensures Valid() && Input() == AfterNewline(old(Input())) && linenumber == old(linenumber) + 1
      ensures ok == (linenumber < MAX_INT)
    {
      var c := current;
      Next();
      if IsNewline(current) && current != c {
        Next();
      }
      linenumber := linenumber + 1;
      ok := linenumber < MAX_INT;
    }

    /** An escape with digits, after the backslash: false if it is too large. */
    method ReadDigits() returns (ok: bool)
      requires Valid() && IsDigit(current)
      modifies this`current, this`z, this`buff
      ensures Valid()
      ensures var n := Digits(old(Input()));
              && ok == (Decimal(old(Input()), n) <= 255) && Input() == old(Input())[n..]
              && (ok ==> buff == old(buff) + [Decimal(old(Input()), n)])
    {
      var i, c := 0, 0;
      ghost var t := Input();
      while i == 0 || (i < 3 && IsDigit(current))
        invariant Valid() && 0 <= i <= 3 && i <= |t| && Input() == t[i..] && buff == old(buff)
        invariant (forall j :: 0 <= j < i ==> IsDigit(t[j])) && c == Decimal(t, i)
        decreases 3 - i
      {
        c := 10 * c + (current - 48);
        Next();
        i := i + 1;
      }
      assert i == Digits(t);
      if c > 255 { return false; }
      buff := buff + [c];
      ok := true;
    }

    /** The case of a backslash in read_string. */
    method ReadEscape(ghost del: Byte) returns (error: LexError, ok: bool)
      requires Valid() && current == BACKSLASH as int && del != BACKSLASH && linenumber < MAX_INT
      modifies this
      ensures Valid() && linenumber <= MAX_INT && (ok ==> linenumber < MAX_INT)
      ensures ok ==>
                || (buff == old(buff) && Input() == [] && |old(Input())| == 1 && linenumber == old(linenumber))
                || (exists c: Byte :: buff == old(buff) + [c] && |Input()| < |old(Input())|
                      && Literal(del, old(Input()), old(linenumber)) == Prefix([c], Literal(del, Input(), linenumber)))
      ensures !ok ==> Literal(del, old(Input()), old(linenumber)) == Fail(error)
    {
      hide Literal, Prefix, Digits, Decimal, AfterNewline;
      error := EscapeTooLarge;
      ghost var t := Input();
      EscapeCases(del, t, linenumber);
      Next();
      assert |t| > 1 ==> t[1..][0] == t[1];
      var c := Control(current);
      if c != EOZ {
        buff := buff + [c];
        Next();
        ok := true;
      } else if IsNewline(current) {
        buff := buff + [NEWLINE];
        ok := IncLineNumber();
        error := TooManyLines;
      } else if current == EOZ {
        ok := true;  // the caller reports the end of the input
      } else if !IsDigit(current) {
        SaveAndNext();
        ok := true;
      } else {
        ok := ReadDigits();
      }
    }

    /** read_string: a literal with the delimiter `del`. */
    method ReadString(del: Byte) returns (r: Scanned)
      requires Valid() && current == del as int && !IsNewline(del) && del != BACKSLASH && buff == []
      requires linenumber < MAX_INT
      modifies this
      ensures Valid() && r == Literal(del, old(Input())[1..], old(linenumber))
      ensures r.Done? ==> Input() == r.rest && linenumber == r.line
    {
      ghost var t := Input()[1..];
      SaveAndNext();
      while current != del as int
        invariant Valid() && linenumber < MAX_INT && buff != []
        invariant Literal(del, t, old(linenumber)) == Prefix(buff[1..], Literal(del, Input(), linenumber))
        decreases |Input()|
      {
        if current == EOZ { return Fail(UnfinishedAtEnd); }
        if IsNewline(current) { return Fail(UnfinishedString); }
        ghost var t0, b0, l0 := Input(), buff, linenumber;
        if current == BACKSLASH as int {
          var error, ok := ReadEscape(del);
          if !ok { return Fail(error); }
        } else {
          SaveAndNext();
        }
        if |buff| > |b0| {
          assert buff[1..] == b0[1..] + [buff[|b0|]];
          PrefixTwice(b0[1..], [buff[|b0|]], Literal(del, Input(), linenumber));
        }
      }
      SaveAndNext();
      r := Done(buff[1..|buff|-1], Input(), linenumber);
    }
  }

  lemma PrefixTwice(p: seq<Byte>, q: seq<Byte>, r: Scanned)
    ensures Prefix(p, Prefix(q, r)) == Prefix(p + q, r)
  {
    if r.Done? { assert p + (q + r.value) == (p + q) + r.value; }
  }

  /** The lexer reads back what string.format wrote. */
  method ReadQuoted(ls: LexState, s: seq<Byte>, ghost rest: seq<Byte>) returns (r: Scanned)
    requires ls.Valid() && ls.Input() == Quoted(s) + rest && ls.buff == [] && ls.linenumber + Newlines(s) < MAX_INT
    modifies ls
    ensures ls.Valid() && r == Done(s, rest, old(ls.linenumber) + Newlines(s)) && ls.Input() == rest
  {
    hide Literal, QuotedBytes;
    RoundTrip(s, rest, ls.linenumber);
    assert ls.Input()[0] == QUOTE;
    assert ls.Input()[1..] == QuotedBytes(s) + [QUOTE] + rest;
    r := ls.ReadString(QUOTE);
  }

  // ----- escapes -----

  /** The letters a, b, f, n, r, t and v, and the characters that they stand for behind a backslash. */
  const CONTROL_LETTERS: seq<Byte> := [97, 98, 102, 110, 114, 116, 118]
  const CONTROL_CODES: seq<Byte> := [7, 8, 12, 10, 13, 9, 11]

  lemma ControlEscapes(i: nat, del: Byte, rest: seq<Byte>, line: nat)
    requires i < 7 && (del == QUOTE || del == 39)
    ensures Literal(del, [BACKSLASH, CONTROL_LETTERS[i], del] + rest, line) == Done([CONTROL_CODES[i]], rest, line)
  {
    var t := [BACKSLASH, CONTROL_LETTERS[i], del] + rest;
    assert t[2..][0] == del && t[2..][1..] == rest;
    assert Literal(del, t[2..], line) == Done([], rest, line);
    assert Control(CONTROL_LETTERS[i]) == CONTROL_CODES[i];
    assert [CONTROL_CODES[i]] + [] == [CONTROL_CODES[i]];
  }

  /** Three digits are a byte in decimal. */
  lemma DecimalEscapes(v: Byte, del: Byte, rest: seq<Byte>, line: nat)
    requires del == QUOTE || del == 39
    ensures Literal(del, [BACKSLASH, 48 + v / 100, 48 + v / 10 % 10, 48 + v % 10, del] + rest, line)
         == Done([v], rest, line)
  {
    var t := [BACKSLASH, 48 + v / 100, 48 + v / 10 % 10, 48 + v % 10, del] + rest;
    assert t[4..][0] == del && t[4..][1..] == rest;
    assert Literal(del, t[4..], line) == Done([], rest, line);
    var d := t[1..];
    assert IsDigit(d[0]) && IsDigit(d[1]) && IsDigit(d[2]) && Digits(d) == 3;
    assert Decimal(d, 1) == v / 100;
    assert Decimal(d, 2) == 10 * (v / 100) + v / 10 % 10;
    assert Decimal(d, 3) == v as int;
    assert Control(t[1]) == EOZ && !IsNewline(t[1]);
    assert [v] + [] == [v];
  }
}
