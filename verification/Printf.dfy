/**
 printf of kernel/utils.cpp: text goes to the UART in chunks of 64 characters, by way of
 a buffer that is sent as a C string.  The reference is Rendering, the text of the whole
 format in one piece.
 */
module Printf {
  import opened Numerals

  const BUF_LEN: nat := 64

  // ------------------------------------------------------------------ C strings

  /** What a C function sees of a character sequence: everything before the first NUL. */
  function Cut(s: string): string {
    if s == "" || s[0] == '\0' then "" else [s[0]] + Cut(s[1..])
  }

  predicate NoNul(s: string) {
    forall c :: c in s ==> c != '\0'
  }

  /** The text of a C string: what stands before its terminating NUL. */
  type CString = s: string | NoNul(s) witness ""

  lemma {:induction false} CutStops(s: string, k: nat)
    requires k < |s| && s[k] == '\0'
    ensures Cut(s) == Cut(s[..k])
  {
    if k > 0 && s[0] != '\0' {
      CutStops(s[1..], k - 1);
      assert s[1..][..k - 1] == s[..k][1..];
    }
  }

  lemma {:induction false} CutWhole(s: string)
    requires NoNul(s)
    ensures Cut(s) == s
  {
    if s != "" {
      assert s == [s[0]] + s[1..];
      NoNulParts([s[0]], s[1..]);
      assert s[0] in s;
      CutWhole(s[1..]);
    }
  }

  lemma {:induction false} CutIsClean(s: string)
    ensures NoNul(Cut(s))
  {
    if s != "" && s[0] != '\0' {
      CutIsClean(s[1..]);
    }
  }

  // -------------------------------------------------------------------- formats

  /** The arguments of the directives; int and long are signed, and %c takes an int. */
  datatype Arg = IntArg(i: int) | StringArg(s: CString) | LongArg(l: int)

  /** The conversion of an int to char: its low eight bits. */
  function ToChar(i: int): char {
    (i % 256) as char
  }

  /** What one directive prints: characters for the buffer, or a string for the UART. */
  datatype Piece = Chars(text: string) | Direct(text: string)

  /** A directive, the length of its spelling, and how many arguments it takes. */
  datatype Directive = Directive(piece: Piece, length: nat, args: nat)

  predicate Matches(arg: Arg, c: char) {
    match c
    case 's' => arg.StringArg?
    case _ => (c == 'c' || c == 'd' || c == 'x') && arg.IntArg? && -0x8000_0000 <= arg.i < 0x8000_0000
  }

  predicate MatchesLong(arg: Arg) {
    arg.LongArg? && -0x8000_0000_0000_0000 <= arg.l < 0x8000_0000_0000_0000
  }

  /** Which argument, if any, the directive at position i takes. */
  predicate Ready(fmt: CString, i: nat, args: seq<Arg>) {
    i + 1 < |fmt| && fmt[i] == '%' ==>
      && (fmt[i + 1] in {'c', 's', 'd', 'x'} ==> args != [] && Matches(args[0], fmt[i + 1]))
      && (fmt[i + 1] == 'l' ==>
            && i + 2 < |fmt| // after a final %l the source reads past the end of the format
            && (fmt[i + 2] in {'d', 'x'} ==> args != [] && MatchesLong(args[0])))
  }

  /** A number in decimal with a sign, or in hexadecimal as the unsigned number with the same bits. */
  function NumberText(n: int, hex: bool, limit: nat): string
    requires -(limit as int) <= n < limit
  {
    if hex then Numeral(if n < 0 then n + limit else n, 16)
    else if n < 0 then "-" + Numeral(-n, 10)
    else Numeral(n, 10)
  }

  function DirectiveAt(fmt: CString, i: nat, args: seq<Arg>): Directive
    requires i < |fmt| && Ready(fmt, i, args)
  {
    if fmt[i] != '%' then Directive(Chars([fmt[i]]), 1, 0)
    else if i + 1 == |fmt| then Directive(Chars(""), 1, 0)
    else match fmt[i + 1]
      case '%' => Directive(Chars("%"), 2, 0)
      case 'c' => Directive(Chars([ToChar(args[0].i)]), 2, 1)
      case 's' => Directive(Direct(args[0].s), 2, 1)
      case 'd' => Directive(Chars(NumberText(args[0].i, false, 0x1_0000_0000)), 2, 1)
      case 'x' => Directive(Chars(NumberText(args[0].i, true, 0x1_0000_0000)), 2, 1)
      case 'l' =>
        if fmt[i + 2] == 'd' || fmt[i + 2] == 'x'
        then Directive(Chars(NumberText(args[0].l, fmt[i + 2] == 'x', 0x1_0000_0000_0000_0000)), 3, 1)
        else Directive(Chars(""), 3, 0)
      case _ => Directive(Chars(""), 2, 0)
  }

  lemma DirectiveSize(fmt: CString, i: nat, args: seq<Arg>)
    requires i < |fmt| && Ready(fmt, i, args)
    ensures var d := DirectiveAt(fmt, i, args); d.length > 0 && i + d.length <= |fmt| && d.args <= |args|
  {
  }

  /** Every directive from position i on finds its argument. */
  predicate Fits(fmt: CString, i: nat, args: seq<Arg>)
    decreases |fmt| - i
  {
    i >= |fmt| ||
    (Ready(fmt, i, args) &&
     (DirectiveSize(fmt, i, args);
      var d := DirectiveAt(fmt, i, args);
      Fits(fmt, i + d.length, args[d.args..])))
  }

  /** The text of the format from position i on. */
  function Rendering(fmt: CString, i: nat, args: seq<Arg>): string
    requires Fits(fmt, i, args)
    decreases |fmt| - i
  {
    if i >= |fmt| then ""
    else
      DirectiveSize(fmt, i, args);
      var d := DirectiveAt(fmt, i, args);
      d.piece.text + Rendering(fmt, i + d.length, args[d.args..])
  }

  // ------------------------------------------------------------------- chunks

  /** What the UART has received, and what waits in the buffer. */
  datatype Out = Out(sent: string, pending: string)

  function Put(o: Out, c: char): Out {
    if |o.pending| + 1 == 64 then Out(o.sent + Cut(o.pending + [c]), "") else Out(o.sent, o.pending + [c])
  }

  function PutAll(o: Out, s: string): Out
    decreases |s|
  {
    if s == "" then o else PutAll(Put(o, s[0]), s[1..])
  }

  function Emit(o: Out, p: Piece): Out {
    match p
    case Chars(text) => PutAll(o, text)
    case Direct(text) => Out(o.sent + Cut(o.pending) + text, "")
  }

  function Flush(o: Out): string {
    o.sent + Cut(o.pending)
  }

  /** What printf has done when it reaches the end of the format. */
  function Run(o: Out, fmt: CString, i: nat, args: seq<Arg>): Out
    requires Fits(fmt, i, args)
    decreases |fmt| - i
  {
    if i >= |fmt| then o
    else
      DirectiveSize(fmt, i, args);
      var d := DirectiveAt(fmt, i, args);
      Run(Emit(o, d.piece), fmt, i + d.length, args[d.args..])
  }

  lemma NoNulParts(a: string, b: string)
    ensures NoNul(a + b) <==> NoNul(a) && NoNul(b)
  {
    if NoNul(a + b) {
      forall c | c in a ensures c != '\0' {
        assert c in a + b;
      }
      forall c | c in b ensures c != '\0' {
        assert c in a + b;
      }
    }
  }

  lemma {:induction false} PutAllFlushes(o: Out, s: string)
    requires NoNul(o.pending) && NoNul(s)
    ensures var o' := PutAll(o, s); NoNul(o'.pending) && Flush(o') == Flush(o) + s
    decreases |s|
  {
    if s == "" {
      assert Flush(o) + s == Flush(o);
    } else {
      assert s[0] in s && s == [s[0]] + s[1..];
      NoNulParts([s[0]], s[1..]);
      NoNulParts(o.pending, [s[0]]);
      CutWhole(o.pending);
      CutWhole(o.pending + [s[0]]);
      var o1 := Put(o, s[0]);
      assert Flush(o1) == Flush(o) + [s[0]];
      PutAllFlushes(o1, s[1..]);
      assert Flush(o) + [s[0]] + s[1..] == Flush(o) + s;
    }
  }

  lemma EmitFlushes(o: Out, p: Piece)
    requires NoNul(o.pending) && NoNul(p.text)
    ensures var o' := Emit(o, p); NoNul(o'.pending) && Flush(o') == Flush(o) + p.text
  {
    if p.Chars? {
      PutAllFlushes(o, p.text);
    }
  }

  /** Without NUL characters, the chunks add up to the rendering. */
  lemma {:induction false} ChunksAddUp(o: Out, fmt: CString, i: nat, args: seq<Arg>)
    requires Fits(fmt, i, args) && NoNul(o.pending) && NoNul(Rendering(fmt, i, args))
    ensures Flush(Run(o, fmt, i, args)) == Flush(o) + Rendering(fmt, i, args)
    decreases |fmt| - i
  {
    hide DirectiveAt;
    hide Emit;
    hide NoNul;
    if i < |fmt| {
      DirectiveSize(fmt, i, args);
      var d := DirectiveAt(fmt, i, args);
      var rest := Rendering(fmt, i + d.length, args[d.args..]);
      NoNulParts(d.piece.text, rest);
      EmitFlushes(o, d.piece);
      ChunksAddUp(Emit(o, d.piece), fmt, i + d.length, args[d.args..]);
      assert Flush(o) + d.piece.text + rest == Flush(o) + (d.piece.text + rest);
    } else {
      assert Flush(o) + "" == Flush(o);
    }
  }

  /** Characters wait until there are 64 of them; those are sent, as far as the first NUL. */
  lemma {:induction false} ChunkSize(o: Out, s: string)
    requires |o.pending| + |s| <= 64 && |o.pending| < 64
    ensures PutAll(o, s) == if |o.pending| + |s| < 64 then Out(o.sent, o.pending + s)
                            else Out(o.sent + Cut(o.pending + s), "")
    decreases |s|
  {
    if |s| == 0 {
      assert o.pending + s == o.pending;
    } else {
      assert o.pending + s == o.pending + [s[0]] + s[1..];
      if |s| == 1 {
        assert s[1..] == "" && o.pending + s == o.pending + [s[0]];
      } else {
        ChunkSize(Put(o, s[0]), s[1..]);
      }
    }
  }

  // ------------------------------------------------ with NUL characters it differs

  lemma {:induction false} PutAllIsClean(o: Out, s: string)
    requires NoNul(o.sent)
    ensures NoNul(PutAll(o, s).sent)
    decreases |s|
  {
    if s != "" {
      CutIsClean(o.pending + [s[0]]);
      NoNulParts(o.sent, Cut(o.pending + [s[0]]));
      PutAllIsClean(Put(o, s[0]), s[1..]);
    }
  }

  lemma DirectIsClean(fmt: CString, i: nat, args: seq<Arg>)
    requires i < |fmt| && Ready(fmt, i, args)
    ensures DirectiveAt(fmt, i, args).piece.Direct? ==> NoNul(DirectiveAt(fmt, i, args).piece.text)
  {
  }

  /** The UART never receives a NUL. */
  lemma {:induction false} SentIsClean(o: Out, fmt: CString, i: nat, args: seq<Arg>)
    requires Fits(fmt, i, args) && NoNul(o.sent)
    ensures NoNul(Flush(Run(o, fmt, i, args)))
    decreases |fmt| - i
  {
    if i < |fmt| {
      DirectiveSize(fmt, i, args);
      var d := DirectiveAt(fmt, i, args);
      if d.piece.Chars? {
        PutAllIsClean(o, d.piece.text);
      } else {
        DirectIsClean(fmt, i, args);
        CutIsClean(o.pending);
        NoNulParts(o.sent, Cut(o.pending));
        NoNulParts(o.sent + Cut(o.pending), d.piece.text);
      }
      SentIsClean(Emit(o, d.piece), fmt, i + d.length, args[d.args..]);
    } else {
      CutIsClean(o.pending);
      NoNulParts(o.sent, Cut(o.pending));
    }
  }

  /** printf sends the rendering of the format exactly when that rendering has no NUL, so when no %c takes one. */
  lemma SendsTheRendering(fmt: CString, args: seq<Arg>)
    requires Fits(fmt, 0, args)
    ensures Flush(Run(Out("", ""), fmt, 0, args)) == Rendering(fmt, 0, args) <==> !TakesNul(fmt, 0, args)
  {
    NulOnlyFromChars(fmt, 0, args);
    SentIsClean(Out("", ""), fmt, 0, args);
    if NoNul(Rendering(fmt, 0, args)) {
      ChunksAddUp(Out("", ""), fmt, 0, args);
      assert Flush(Out("", "")) == "";
    }
  }

  /** The directive at position i prints a NUL: %c with a multiple of 256. */
  predicate PrintsNul(fmt: CString, i: nat, args: seq<Arg>)
    requires i < |fmt| && Ready(fmt, i, args)
  {
    fmt[i] == '%' && i + 1 < |fmt| && fmt[i + 1] == 'c' && args[0].i % 256 == 0
  }

  /** Some %c from position i on takes a multiple of 256. */
  predicate TakesNul(fmt: CString, i: nat, args: seq<Arg>)
    requires Fits(fmt, i, args)
    decreases |fmt| - i
  {
    if i >= |fmt| then false
    else
      DirectiveSize(fmt, i, args);
      var d := DirectiveAt(fmt, i, args);
      PrintsNul(fmt, i, args) || TakesNul(fmt, i + d.length, args[d.args..])
  }

  /** The rendering has a NUL exactly when some %c takes one. */
  lemma {:induction false} NulOnlyFromChars(fmt: CString, i: nat, args: seq<Arg>)
    requires Fits(fmt, i, args)
    ensures NoNul(Rendering(fmt, i, args)) <==> !TakesNul(fmt, i, args)
    decreases |fmt| - i
  {
    hide NoNul;
    hide PrintsNul;
    hide DirectiveAt;
    if i < |fmt| {
      DirectiveSize(fmt, i, args);
      var d := DirectiveAt(fmt, i, args);
      PieceIsClean(fmt, i, args);
      NulOnlyFromChars(fmt, i + d.length, args[d.args..]);
      NoNulParts(d.piece.text, Rendering(fmt, i + d.length, args[d.args..]));
    } else {
      EmptyIsClean();
    }
  }

  lemma EmptyIsClean()
    ensures NoNul("")
  {
  }

  lemma LossDirectives(fmt: CString, args: seq<Arg>, i: int)
    requires fmt == "a%cb" && args == [IntArg(i)] && i % 256 == 0 && -0x8000_0000 <= i < 0x8000_0000
    ensures DirectiveAt(fmt, 0, args) == Directive(Chars("a"), 1, 0) && args[0..] == args
    ensures DirectiveAt(fmt, 1, args) == Directive(Chars(['\0']), 2, 1) && args[1..] == []
    ensures DirectiveAt(fmt, 3, []) == Directive(Chars("b"), 1, 0)
  {
  }

  /** One NUL, from 0, 256 and so on, loses text: the rendering of "a%cb" has three characters, and one is sent. */
  lemma NulLosesText(i: int)
    requires i % 256 == 0 && -0x8000_0000 <= i < 0x8000_0000
    ensures var args := [IntArg(i)];
      && Fits("a%cb", 0, args) && Rendering("a%cb", 0, args) == ['a', '\0', 'b']
      && Flush(Run(Out("", ""), "a%cb", 0, args)) == "a"
  {
    var fmt: CString, args := "a%cb", [IntArg(i)];
    LossDirectives(fmt, args, i);
    hide DirectiveAt;
    assert Fits(fmt, 4, []) && Fits(fmt, 3, []) && Fits(fmt, 1, args) && Fits(fmt, 0, args);
    assert Rendering(fmt, 4, []) == "" && Rendering(fmt, 3, []) == "b" && Rendering(fmt, 1, args) == ['\0', 'b'];
    PutOne(Out("", ""), 'a');
    PutOne(Out("", "a"), '\0');
    PutOne(Out("", ['a', '\0']), 'b');
    var end := Out("", ['a', '\0', 'b']);
    assert Run(end, fmt, 4, []) == end;
    assert Run(Out("", ['a', '\0']), fmt, 3, []) == end;
    assert Run(Out("", "a"), fmt, 1, args) == end;
    CutStops(end.pending, 1);
    assert end.pending[..1] == ['a'] && Cut(['a']) == ['a'] + Cut(['a'][1..]);
  }

  lemma NumberIsClean(n: int, hex: bool, limit: nat)
    requires -(limit as int) <= n < limit
    ensures NoNul(NumberText(n, hex, limit))
  {
    if hex {
      NumeralOnly(if n < 0 then n + limit else n, 16);
    } else {
      NumeralOnly(if n < 0 then -n else n, 10);
      NoNulParts("-", Numeral(if n < 0 then -n else n, 10));
    }
  }

  lemma PieceIsClean(fmt: CString, i: nat, args: seq<Arg>)
    requires i < |fmt| && Ready(fmt, i, args)
    ensures NoNul(DirectiveAt(fmt, i, args).piece.text) <==> !PrintsNul(fmt, i, args)
  {
    hide NumberText;
    assert fmt[i] in fmt;
    if i + 1 < |fmt| && fmt[i] == '%' {
      if fmt[i + 1] == 'c' {
        assert ToChar(args[0].i) in [ToChar(args[0].i)];
      } else if fmt[i + 1] == 'd' || fmt[i + 1] == 'x' {
        NumberIsClean(args[0].i, fmt[i + 1] == 'x', 0x1_0000_0000);
      } else if fmt[i + 1] == 'l' && (fmt[i + 2] == 'd' || fmt[i + 2] == 'x') {
        NumberIsClean(args[0].l, fmt[i + 2] == 'x', 0x1_0000_0000_0000_0000);
      }
    }
  }

  // ------------------------------------------------- what the directives print

  /** The text of a number: digits of the base that evaluate to it, with no leading zero. */
  predicate IsNumber(t: string, n: nat, base: nat) {
    && t != "" && Value(t, base) == n && (|t| > 1 ==> t[0] != '0')
    && forall c :: c in t ==> '0' <= c <= '9' || (base == 16 && 'A' <= c <= 'F')
  }

  predicate IsDecimal(t: string, n: int) {
    if n >= 0 then IsNumber(t, n, 10) else t != "" && t[0] == '-' && IsNumber(t[1..], -n, 10)
  }

  /** Hexadecimal of the bits of an int or long. */
  predicate IsHex(t: string, n: int, limit: nat) {
    if n >= 0 then IsNumber(t, n, 16) else n + limit >= 0 && IsNumber(t, n + limit, 16)
  }

  lemma NumeralIs(n: nat, base: nat)
    requires base == 10 || base == 16
    ensures IsNumber(Numeral(n, base), n, base)
  {
    hide Value;
    var t := Numeral(n, base);
    NumeralValue(n, base);
    NoLeadingZero(n, base);
    NumeralDigits(n, base);
    if n == 0 {
      assert t == "0";
    }
    hide Numeral;
  }

  lemma NumeralDigits(n: nat, base: nat)
    requires base == 10 || base == 16
    ensures forall c :: c in Numeral(n, base) ==> '0' <= c <= '9' || (base == 16 && 'A' <= c <= 'F')
  {
    if n == 0 {
    } else {
      DigitsOnly(n, base);
      forall c | c in Digits(n, base) ensures '0' <= c <= '9' || (base == 16 && 'A' <= c <= 'F') {
        DigitOf(DigitValue(c), base);
      }
      hide Digits;
    }
  }

  lemma DigitOf(d: nat, base: nat)
    requires d < base && (base == 10 || base == 16)
    ensures '0' <= Digit(d) <= '9' || (base == 16 && 'A' <= Digit(d) <= 'F')
  {
  }

  lemma NumberTextIs(n: int, limit: nat)
    requires -(limit as int) <= n < limit
    ensures IsDecimal(NumberText(n, false, limit), n) && IsHex(NumberText(n, true, limit), n, limit)
  {
    hide Numeral;
    hide IsNumber;
    NumeralIs(if n < 0 then n + limit else n, 16);
    NumeralIs(if n < 0 then -n else n, 10);
    assert ("-" + Numeral(if n < 0 then -n else n, 10))[1..] == Numeral(if n < 0 then -n else n, 10);
  }

  /** %d, %x, %ld and %lx print the number, and the rest of the format follows. */
  lemma SaysNumber(fmt: CString, i: nat, args: seq<Arg>) returns (t: string)
    requires Fits(fmt, i, args) && i + 1 < |fmt| && fmt[i] == '%'
    requires fmt[i + 1] in {'d', 'x'} || (fmt[i + 1] == 'l' && i + 2 < |fmt| && fmt[i + 2] in {'d', 'x'})
    ensures args != []
    ensures fmt[i + 1] == 'd' ==> args[0].IntArg? && IsDecimal(t, args[0].i)
    ensures fmt[i + 1] == 'x' ==> args[0].IntArg? && IsHex(t, args[0].i, 0x1_0000_0000)
    ensures fmt[i + 1] == 'l' && fmt[i + 2] == 'd' ==> args[0].LongArg? && IsDecimal(t, args[0].l)
    ensures fmt[i + 1] == 'l' && fmt[i + 2] == 'x' ==>
              args[0].LongArg? && IsHex(t, args[0].l, 0x1_0000_0000_0000_0000)
    ensures var next := if fmt[i + 1] == 'l' then i + 3 else i + 2;
      Fits(fmt, next, args[1..]) && Rendering(fmt, i, args) == t + Rendering(fmt, next, args[1..])
  {
    hide NumberText;
    hide IsDecimal;
    hide IsHex;
    t := DirectiveAt(fmt, i, args).piece.text;
    if fmt[i + 1] == 'l' {
      NumberTextIs(args[0].l, 0x1_0000_0000_0000_0000);
    } else {
      NumberTextIs(args[0].i, 0x1_0000_0000);
    }
  }

  /** Everything else: %c the low byte of its int, %s its string, %% one percent sign, other characters themselves. */
  lemma SaysText(fmt: CString, i: nat, args: seq<Arg>)
    requires Fits(fmt, i, args)
    ensures i >= |fmt| ==> Rendering(fmt, i, args) == ""
    ensures i < |fmt| && fmt[i] != '%' ==>
              Fits(fmt, i + 1, args) && Rendering(fmt, i, args) == [fmt[i]] + Rendering(fmt, i + 1, args)
    ensures i + 1 == |fmt| && fmt[i] == '%' ==> Rendering(fmt, i, args) == ""
    ensures i + 1 < |fmt| && fmt[i] == '%' && fmt[i + 1] == '%' ==>
              Fits(fmt, i + 2, args) && Rendering(fmt, i, args) == "%" + Rendering(fmt, i + 2, args)
    ensures i + 1 < |fmt| && fmt[i] == '%' && fmt[i + 1] == 'c' ==>
              && args != [] && args[0].IntArg? && Fits(fmt, i + 2, args[1..]) && Rendering(fmt, i, args) != ""
              && Rendering(fmt, i, args)[0] as int == args[0].i % 256
              && Rendering(fmt, i, args)[1..] == Rendering(fmt, i + 2, args[1..])
    ensures i + 1 < |fmt| && fmt[i] == '%' && fmt[i + 1] == 's' ==>
              && args != [] && args[0].StringArg? && Fits(fmt, i + 2, args[1..])
              && Rendering(fmt, i, args) == args[0].s + Rendering(fmt, i + 2, args[1..])
    ensures i + 1 < |fmt| && fmt[i] == '%' && fmt[i + 1] !in {'%', 'c', 's', 'd', 'x', 'l'} ==>
              Fits(fmt, i + 2, args) && Rendering(fmt, i, args) == Rendering(fmt, i + 2, args)
    ensures i + 2 < |fmt| && fmt[i] == '%' && fmt[i + 1] == 'l' && fmt[i + 2] !in {'d', 'x'} ==>
              Fits(fmt, i + 3, args) && Rendering(fmt, i, args) == Rendering(fmt, i + 3, args)
  {
    hide NumberText;
    assert args[0..] == args;
  }

  /** The text that a format of one directive prints. */
  ghost predicate OneText(fmt: CString, args: seq<Arg>, t: string)
    requires Fits(fmt, 0, args)
  {
    && (fmt == "%d" ==> args != [] && args[0].IntArg? && IsDecimal(t, args[0].i))
    && (fmt == "%x" ==> args != [] && args[0].IntArg? && IsHex(t, args[0].i, 0x1_0000_0000))
    && (fmt == "%ld" ==> args != [] && args[0].LongArg? && IsDecimal(t, args[0].l))
    && (fmt == "%lx" ==> args != [] && args[0].LongArg? && IsHex(t, args[0].l, 0x1_0000_0000_0000_0000))
    && (fmt == "%s" ==> args != [] && args[0].StringArg? && t == args[0].s)
    && (fmt == "%c" ==> args != [] && args[0].IntArg? && |t| == 1 && t[0] as int == args[0].i % 256)
    && (fmt == "%%" ==> t == "%")
  }

  /** A format of one directive takes a NUL only if it is %c with a multiple of 256. */
  lemma OneTakesNul(fmt: CString, args: seq<Arg>)
    requires Fits(fmt, 0, args)
    ensures fmt in {"%d", "%x", "%ld", "%lx", "%s", "%%"} ==> !TakesNul(fmt, 0, args)
    ensures fmt == "%c" ==> args != [] && args[0].IntArg? && (TakesNul(fmt, 0, args) <==> args[0].i % 256 == 0)
  {
    hide NumberText;
  }

  lemma OneDirective(fmt: CString, args: seq<Arg>)
    requires Fits(fmt, 0, args)
    ensures OneText(fmt, args, Rendering(fmt, 0, args))
  {
    hide DirectiveAt;
    hide IsDecimal;
    hide IsHex;
    hide Rendering;
    hide Fits;
    if fmt in {"%d", "%x", "%ld", "%lx"} {
      var t := SaysNumber(fmt, 0, args);
      SaysText(fmt, |fmt|, args[1..]);
      assert t + "" == t;
    } else if fmt in {"%s", "%c", "%%"} {
      SaysText(fmt, 0, args);
      SaysText(fmt, 2, if fmt == "%%" then args else args[1..]);
    }
  }

  // ------------------------------------------------------------------ in place

  class Uart {
    var sent: string

    constructor ()
      ensures sent == ""
    {
      sent := "";
    }

    /** putstr of a terminated buffer: character by character up to the NUL. */
    method PutStr(s: array<char>, ghost end: nat)
      requires end < s.Length && s[end] == '\0'
      modifies this
      ensures sent == old(sent) + Cut(s[..end])
    {
      var i := 0;
      CutStops(s[..], end);
      assert s[..][..end] == s[..end];
      while s[i] != '\0'
        invariant i <= end && old(sent) + Cut(s[..]) == sent + Cut(s[i..])
        decreases end - i
      {
        assert s[i..][1..] == s[i + 1..];
        assert sent + ([s[i]] + Cut(s[i + 1..])) == sent + [s[i]] + Cut(s[i + 1..]);
        sent := sent + [s[i]];
        i := i + 1;
      }
      assert sent + Cut(s[i..]) == sent;
    }

    /** putstr of a string argument. */
    method PutString(s: string)
      modifies this
      ensures sent == old(sent) + s
    {
      sent := sent + s;
    }
  }

  /** printf_add_to_buffer */
  method AddToBuffer(uart: Uart, buffer: array<char>, c: char, idx: nat) returns (next: nat)
    requires buffer.Length == BUF_LEN + 1 && idx < BUF_LEN
    modifies uart, buffer
    ensures next < BUF_LEN
    ensures Out(uart.sent, buffer[..next]) == Put(Out(old(uart.sent), old(buffer[..idx])), c)
  {
    buffer[idx] := c;
    next := idx + 1;
    assert buffer[..next] == old(buffer[..idx]) + [c];
    if next == BUF_LEN {
      buffer[next] := '\0';
      assert buffer[..next] == old(buffer[..idx]) + [c];
      uart.PutStr(buffer, next);
      next := 0;
    }
  }

  lemma PutAllOne(o: Out, s: string, k: nat)
    requires k < |s|
    ensures PutAll(o, s[..k + 1]) == Put(PutAll(o, s[..k]), s[k])
    decreases k
  {
    if k > 0 {
      PutAllOne(Put(o, s[0]), s[1..], k - 1);
      assert s[..k + 1][1..] == s[1..][..k] && s[..k][1..] == s[1..][..k - 1];
    } else {
      assert s[..1][1..] == "" && s[..0] == "";
    }
  }

  /** The loop that copies a numeral, or a sign before it, into the buffer. */
  method AddNumeral(uart: Uart, buffer: array<char>, digits: array<char>, ghost text: string, idx: nat)
      returns (next: nat)
    requires buffer.Length == BUF_LEN + 1 && idx < BUF_LEN && buffer != digits
    requires |text| < digits.Length && digits[..|text|] == text && digits[|text|] == '\0' && NoNul(text)
    modifies uart, buffer
    ensures next < BUF_LEN
    ensures Out(uart.sent, buffer[..next]) == PutAll(Out(old(uart.sent), old(buffer[..idx])), text)
  {
    ghost var o := Out(uart.sent, buffer[..idx]);
    next := idx;
    forall k | 0 <= k < |text| ensures digits[k] == text[k] && text[k] != '\0' {
      assert digits[..|text|][k] == text[k] && text[k] in text;
    }
    var j := 0;
    while digits[j] != '\0'
      invariant j <= |text| && next < BUF_LEN && digits[..] == old(digits[..])
      invariant Out(uart.sent, buffer[..next]) == PutAll(o, text[..j])
      decreases |text| - j
    {
      assert digits[j] == text[j];
      PutAllOne(o, text, j);
      next := AddToBuffer(uart, buffer, digits[j], next);
      j := j + 1;
    }
    assert text[..j] == text;
  }

  /** The cases %d and %x. */
  method PrintInt(uart: Uart, buffer: array<char>, number: array<char>, n: int, hex: bool, idx: nat) returns (next: nat)
    requires buffer.Length == BUF_LEN + 1 && idx < BUF_LEN && number.Length == 33 && buffer != number
    requires -0x8000_0000 <= n < 0x8000_0000
    modifies uart, buffer, number
    ensures next < BUF_LEN
    ensures Out(uart.sent, buffer[..next]) ==
              PutAll(Out(old(uart.sent), old(buffer[..idx])), NumberText(n, hex, 0x1_0000_0000))
  {
    hide Put;
    hide PutAll;
    hide Numeral;
    next := idx;
    var temp := n;
    if temp < 0 && !hex {
      next := AddToBuffer(uart, buffer, '-', next);
      temp := -temp;
    }
    var base, unsigned := if hex then 16 else 10, if temp < 0 then temp + 0x1_0000_0000 else temp;
    Itos(number, unsigned, base);
    NumeralOnly(unsigned, base);
    SignFirst(Out(old(uart.sent), old(buffer[..idx])), Numeral(unsigned, base));
    next := AddNumeral(uart, buffer, number, Numeral(unsigned, base), next);
  }

  /** The cases %ld and %lx. */
  method PrintLong(uart: Uart, buffer: array<char>, number: array<char>, n: int, hex: bool, idx: nat)
      returns (next: nat)
    requires buffer.Length == BUF_LEN + 1 && idx < BUF_LEN && number.Length == 65 && buffer != number
    requires -0x8000_0000_0000_0000 <= n < 0x8000_0000_0000_0000
    modifies uart, buffer, number
    ensures next < BUF_LEN
    ensures Out(uart.sent, buffer[..next]) ==
              PutAll(Out(old(uart.sent), old(buffer[..idx])), NumberText(n, hex, 0x1_0000_0000_0000_0000))
  {
    hide Put;
    hide PutAll;
    hide Numeral;
    next := idx;
    var temp := n;
    if temp < 0 && !hex {
      next := AddToBuffer(uart, buffer, '-', next);
      temp := -temp;
    }
    var base, unsigned := if hex then 16 else 10, if temp < 0 then temp + 0x1_0000_0000_0000_0000 else temp;
    Litos(number, unsigned, base);
    NumeralOnly(unsigned, base);
    SignFirst(Out(old(uart.sent), old(buffer[..idx])), Numeral(unsigned, base));
    next := AddNumeral(uart, buffer, number, Numeral(unsigned, base), next);
  }

  lemma SignFirst(o: Out, text: string)
    ensures PutAll(o, "-" + text) == PutAll(Put(o, '-'), text)
  {
    assert ("-" + text)[1..] == text;
  }

  lemma PutOne(o: Out, c: char)
    ensures PutAll(o, [c]) == Put(o, c) && PutAll(o, "") == o
  {
    assert [c][1..] == "";
    assert PutAll(Put(o, c), "") == Put(o, c);
  }

  /** The switch: one directive, at position i of the format. */
  method PrintDirective(uart: Uart, buffer: array<char>, number: array<char>, longNumber: array<char>,
                        fmt: CString, i: nat, args: seq<Arg>, idx: nat)
    returns (next: nat, length: nat, taken: nat)
    requires buffer.Length == BUF_LEN + 1 && idx < BUF_LEN && number.Length == 33 && longNumber.Length == 65
    requires buffer != number && buffer != longNumber
    requires i < |fmt| && Ready(fmt, i, args)
    modifies uart, buffer, number, longNumber
    ensures next < BUF_LEN
    ensures var d := DirectiveAt(fmt, i, args);
      && Out(uart.sent, buffer[..next]) == Emit(Out(old(uart.sent), old(buffer[..idx])), d.piece)
      && length == d.length && taken == d.args
  {
    hide Put;
    hide PutAll;
    hide NumberText;
    ghost var o := Out(uart.sent, buffer[..idx]);
    PutOne(o, fmt[i]);
    next, length, taken := idx, 1, 0;
    if fmt[i] != '%' {
      next := AddToBuffer(uart, buffer, fmt[i], idx);
    } else if i + 1 < |fmt| {
      length := 2;
      var c := fmt[i + 1];
      if c == '%' {
        PutOne(o, '%');
        next := AddToBuffer(uart, buffer, c, idx);
      } else if c == 'c' {
        taken := 1;
        PutOne(o, ToChar(args[0].i));
        next := AddToBuffer(uart, buffer, ToChar(args[0].i), idx);
      } else if c == 's' {
        taken := 1;
        next := SendString(uart, buffer, args[0].s, idx);
      } else if c == 'd' || c == 'x' {
        taken := 1;
        next := PrintInt(uart, buffer, number, args[0].i, c == 'x', idx);
      } else if c == 'l' {
        length := 3;
        if fmt[i + 2] == 'd' || fmt[i + 2] == 'x' {
          taken := 1;
          next := PrintLong(uart, buffer, longNumber, args[0].l, fmt[i + 2] == 'x', idx);
        }
      }
    }
  }

  /** The case %s: what is buffered goes first, then the string itself. */
  method SendString(uart: Uart, buffer: array<char>, s: string, idx: nat) returns (next: nat)
    requires buffer.Length == BUF_LEN + 1 && idx < BUF_LEN
    modifies uart, buffer
    ensures next == 0 && uart.sent == old(uart.sent) + Cut(old(buffer[..idx])) + s
  {
    buffer[idx] := '\0';
    assert buffer[..idx] == old(buffer[..idx]);
    uart.PutStr(buffer, idx);
    uart.PutString(s);
    next := 0;
  }

  lemma RunStep(o: Out, fmt: CString, i: nat, args: seq<Arg>)
    requires i < |fmt| && Fits(fmt, i, args)
    ensures Ready(fmt, i, args)
    ensures var d := DirectiveAt(fmt, i, args);
      && d.length > 0 && i + d.length <= |fmt| && d.args <= |args| && Fits(fmt, i + d.length, args[d.args..])
      && Run(o, fmt, i, args) == Run(Emit(o, d.piece), fmt, i + d.length, args[d.args..])
  {
    DirectiveSize(fmt, i, args);
  }

  /**
   printf.  What the UART receives is the text of the format, whatever the lengths, unless a
   NUL is printed with %c; and no write leaves the buffers.
   */
  method Print(uart: Uart, fmt: CString, args: seq<Arg>)
    requires Fits(fmt, 0, args)
    modifies uart
    ensures uart.sent == Flush(Run(Out(old(uart.sent), ""), fmt, 0, args))
    ensures uart.sent == old(uart.sent) + Rendering(fmt, 0, args) <==> !TakesNul(fmt, 0, args)
    ensures old(uart.sent) <= uart.sent
    ensures !TakesNul(fmt, 0, args) ==> OneText(fmt, args, uart.sent[|old(uart.sent)|..])
    ensures fmt in {"%d", "%x", "%ld", "%lx", "%s", "%%"} ==> OneText(fmt, args, uart.sent[|old(uart.sent)|..])
  {
    hide Run;
    hide Fits;
    hide DirectiveAt;
    hide Emit;
    var buffer := new char[BUF_LEN + 1];
    var number := new char[33];
    var longNumber := new char[65];
    var idx: nat, i: nat, k: nat := 0, 0, 0;
    ghost var o := Out(uart.sent, "");
    assert buffer[..0] == "";
    while i < |fmt|
      invariant i <= |fmt| && k <= |args| && idx < BUF_LEN && Fits(fmt, i, args[k..])
      invariant Run(Out(uart.sent, buffer[..idx]), fmt, i, args[k..]) == Run(o, fmt, 0, args)
    {
      RunStep(Out(uart.sent, buffer[..idx]), fmt, i, args[k..]);
      var length, taken;
      idx, length, taken := PrintDirective(uart, buffer, number, longNumber, fmt, i, args[k..], idx);
      assert args[k..][taken..] == args[k + taken..];
      i, k := i + length, k + taken;
    }
    RunEnds(Out(uart.sent, buffer[..idx]), fmt, i, args[k..]);
    ghost var pending := buffer[..idx];
    buffer[idx] := '\0';
    assert buffer[..idx] == pending;
    uart.PutStr(buffer, idx);
    Whole(o.sent, fmt, args);
    OneDirective(fmt, args);
    OneTakesNul(fmt, args);
    assert (o.sent + Rendering(fmt, 0, args))[|o.sent|..] == Rendering(fmt, 0, args);
  }

  lemma RunEnds(o: Out, fmt: CString, i: nat, args: seq<Arg>)
    requires i >= |fmt| && Fits(fmt, i, args)
    ensures Run(o, fmt, i, args) == o
  {
  }

  /** Whatever was sent before: what follows is the rendering exactly when no %c takes a NUL. */
  lemma Whole(sent: string, fmt: CString, args: seq<Arg>)
    requires Fits(fmt, 0, args)
    ensures Flush(Run(Out(sent, ""), fmt, 0, args)) == sent + Rendering(fmt, 0, args) <==> !TakesNul(fmt, 0, args)
    ensures sent <= Flush(Run(Out(sent, ""), fmt, 0, args))
  {
    hide Run;
    hide Rendering;
    var o := Out("", "");
    SendsTheRendering(fmt, args);
    RunAfter(sent, o, fmt, 0, args);
    var text, rendering := Flush(Run(o, fmt, 0, args)), Rendering(fmt, 0, args);
    assert After(sent, o) == Out(sent, "") && Flush(After(sent, Run(o, fmt, 0, args))) == sent + text;
    assert (sent + text)[|sent|..] == text && (sent + rendering)[|sent|..] == rendering;
  }

  /** The same state of printf after something was sent before. */
  function After(sent: string, o: Out): Out {
    Out(sent + o.sent, o.pending)
  }

  lemma {:induction false} PutAllAfter(sent: string, o: Out, s: string)
    ensures PutAll(After(sent, o), s) == After(sent, PutAll(o, s))
    decreases |s|
  {
    if s != "" {
      var cut := Cut(o.pending + [s[0]]);
      assert (sent + o.sent) + cut == sent + (o.sent + cut);
      PutAllAfter(sent, Put(o, s[0]), s[1..]);
    }
  }

  lemma {:induction false} RunAfter(sent: string, o: Out, fmt: CString, i: nat, args: seq<Arg>)
    requires Fits(fmt, i, args)
    ensures Run(After(sent, o), fmt, i, args) == After(sent, Run(o, fmt, i, args))
    decreases |fmt| - i
  {
    hide DirectiveAt;
    if i < |fmt| {
      DirectiveSize(fmt, i, args);
      var d := DirectiveAt(fmt, i, args);
      EmitAfter(sent, o, d.piece);
      RunAfter(sent, Emit(o, d.piece), fmt, i + d.length, args[d.args..]);
    }
  }

  lemma EmitAfter(sent: string, o: Out, p: Piece)
    ensures Emit(After(sent, o), p) == After(sent, Emit(o, p))
  {
    match p
    case Chars(text) => PutAllAfter(sent, o, text);
    case Direct(text) => assert (sent + o.sent) + Cut(o.pending) + text == sent + (o.sent + Cut(o.pending) + text);
  }
}
