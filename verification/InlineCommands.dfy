/** Inline commands: the tokeniser inverts double quoting, and reads plain words as they stand. */
module InlineCommands {
  import opened ByteStrings
  import opened RespParser
  import opened RespLaws
  import opened Sequences

  /** How one byte is written between double quotes so that the tokeniser reads it back. */
  function Escape(b: byte): bytes {
    if b == LF then [BACKSLASH, 110]
    else if b == CR then [BACKSLASH, 114]
    else if b == TAB then [BACKSLASH, 116]
    else if b == QUOTE || b == BACKSLASH then [BACKSLASH, b]
    else [b]
  }

  function EscapeAll(s: bytes): bytes {
    if s == [] then [] else Escape(s[0]) + EscapeAll(s[1..])
  }

  function Quote(s: bytes): bytes {
    [QUOTE] + EscapeAll(s) + [QUOTE]
  }

  /** The arguments, each in double quotes, one space between neighbours. */
  function QuoteLine(args: Command): bytes {
    if args == [] then []
    else if |args| == 1 then Quote(args[0])
    else Quote(args[0]) + [SPACE] + QuoteLine(args[1..])
  }

  lemma EscapeParts(s: bytes, tail: bytes)
    requires s != []
    ensures EscapeAll(s) + [QUOTE] + tail == Escape(s[0]) + (EscapeAll(s[1..]) + [QUOTE] + tail)
    ensures |EscapeAll(s)| == |Escape(s[0])| + |EscapeAll(s[1..])|
  {
    hide Escape;
  }

  /** The escape of one byte, met inside a quoted token, is read as that byte. */
  lemma QuotedOne(line: bytes, i: nat, b: byte)
    requires i + |Escape(b)| <= |line| && line[i..i + |Escape(b)|] == Escape(b)
    ensures
      var (t, j) := Quoted(line, i + |Escape(b)|);
      Quoted(line, i) == ([b] + t, j)
  {
    var e := Escape(b);
    assert line[i] == line[i..i + |e|][0] && (|e| == 2 ==> line[i + 1] == line[i..i + |e|][1]);
  }

  lemma {:induction false} QuotedOfEscape(line: bytes, i: nat, s: bytes, tail: bytes)
    requires i <= |line| && line[i..] == EscapeAll(s) + [QUOTE] + tail
    ensures Quoted(line, i) == (s, i + |EscapeAll(s)| + 1)
    decreases |s|
  {
    hide Escape;
    if s == [] {
      assert line[i] == line[i..][0];
    } else {
      var e := Escape(s[0]);
      var rest := EscapeAll(s[1..]) + [QUOTE] + tail;
      EscapeParts(s, tail);
      Advance(line, i, e, rest);
      QuotedOfEscape(line, i + |e|, s[1..], tail);
      QuotedOne(line, i, s[0]);
      assert [s[0]] + s[1..] == s;
    }
  }

  lemma QuoteParts(s: bytes, tail: bytes)
    ensures Quote(s) + tail == [QUOTE] + (EscapeAll(s) + [QUOTE] + tail)
    ensures |Quote(s)| == |EscapeAll(s)| + 2
  {
    hide EscapeAll;
  }

  lemma TokenOfQuote(line: bytes, i: nat, s: bytes, tail: bytes)
    requires i <= |line| && line[i..] == Quote(s) + tail
    ensures i < |line| && line[i] == QUOTE && SkipGap(line, i) == i
    ensures TokenAt(line, i) == (s, i + |Quote(s)|)
  {
    hide EscapeAll, Quoted, Quote;
    var rest := EscapeAll(s) + [QUOTE] + tail;
    QuoteParts(s, tail);
    assert line[i] == line[i..][0];
    Advance(line, i, [QUOTE], rest);
    QuotedOfEscape(line, i + 1, s, tail);
  }

  lemma TokensOfQuote(line: bytes, i: nat, s: bytes, tail: bytes)
    requires i <= |line| && line[i..] == Quote(s) + tail
    ensures i + |Quote(s)| <= |line|
    ensures Tokens(line, i) == [s] + Tokens(line, i + |Quote(s)|)
  {
    hide Quote;
    TokenOfQuote(line, i, s, tail);
  }

  lemma TokensAtEnd(line: bytes)
    ensures Tokens(line, |line|) == []
  {
  }

  lemma TokensAtGap(line: bytes, i: nat)
    requires i < |line| && line[i] == SPACE
    ensures Tokens(line, i) == Tokens(line, i + 1)
  {
  }

  lemma QuoteLineParts(args: Command)
    ensures QuoteLine(args) ==
      if args == [] then [] else Quote(args[0]) + (if |args| == 1 then [] else [SPACE] + QuoteLine(args[1..]))
  {
    hide Quote;
  }

  lemma {:induction false} TokensOfQuoteLine(line: bytes, i: nat, args: Command)
    requires i <= |line| && line[i..] == QuoteLine(args)
    ensures Tokens(line, i) == args
    decreases |args|
  {
    hide Quote, Tokens, QuoteLine;
    QuoteLineParts(args);
    if args == [] {
      assert i == |line|;
      TokensAtEnd(line);
    } else {
      var q := Quote(args[0]);
      var rest := if |args| == 1 then [] else [SPACE] + QuoteLine(args[1..]);
      TokensOfQuote(line, i, args[0], rest);
      Advance(line, i, q, rest);
      var j := i + |q|;
      if |args| > 1 {
        assert line[j] == line[j..][0] == SPACE;
        Advance(line, j, [SPACE], QuoteLine(args[1..]));
        TokensAtGap(line, j);
        TokensOfQuoteLine(line, j + 1, args[1..]);
      } else {
        assert j == |line| && args[1..] == [];
        TokensAtEnd(line);
      }
      assert [args[0]] + args[1..] == args;
    }
  }

  lemma {:induction false} EscapeIsOneLine(s: bytes)
    ensures CR !in EscapeAll(s) && LF !in EscapeAll(s)
  {
    if s != [] {
      EscapeIsOneLine(s[1..]);
    }
  }

  lemma {:induction false} QuoteLineIsOneLine(args: Command)
    ensures CR !in QuoteLine(args) && LF !in QuoteLine(args)
  {
    if args != [] {
      EscapeIsOneLine(args[0]);
      QuoteLineIsOneLine(args[1..]);
    }
  }

  /**
   * Every non-empty argument list, of arbitrary bytes, survives as an inline command: only the
   * command name comes back in upper case, and exactly the line and its CR LF are consumed.
   */
  lemma InlineInvertsQuoting(args: Command, tail: bytes)
    requires args != []
    ensures Parse(QuoteLine(args) + CRLF + tail)
         == Complete([args[0 := Upper(args[0])]], |QuoteLine(args)| + 2)
  {
    var line := QuoteLine(args);
    var data := line + CRLF + tail;
    QuoteLineIsOneLine(args);
    forall k | 0 <= k < |line|
      ensures !IsCrlf(data, k)
    {
      assert data[k] == line[k] != CR;
    }
    FirstCrlf(data, 0, |line|);
    assert data[..|line|] == line && line[0..] == line;
    assert data[0] == QUOTE;
    TokensOfQuoteLine(line, 0, args);
  }

  // ---- words as people type them ----

  predicate AllGaps(line: bytes, i: nat) { forall j :: i <= j < |line| ==> IsGap(line[j]) }

  lemma BlankHasNoTokens(line: bytes, i: nat)
    requires i <= |line|
    ensures Tokens(line, i) == [] <==> AllGaps(line, i)
  {
  }

  /** The blanks are space and tab. */
  lemma BlankBytes(b: byte)
    ensures AllGaps([b], 0) <==> b == 32 || b == 9
  {
    assert [b][0] == b;
  }

  /** One word of a line: the blanks before it, and an argument that is quoted or stands as it is. */
  datatype Word = Word(gap: bytes, quoted: bool, arg: bytes)

  /** An argument that needs no quotes. */
  predicate IsPlain(arg: bytes) {
    && arg != [] && arg[0] != QUOTE
    && forall i :: 0 <= i < |arg| ==> arg[i] != SPACE && arg[i] != TAB && arg[i] != CR && arg[i] != LF
  }

  /** Spaces and tabs stand before the words, at least one between neighbours. */
  predicate WellSpelled(ws: seq<Word>) {
    && (forall i :: 0 <= i < |ws| ==> AllGaps(ws[i].gap, 0) && (!ws[i].quoted ==> IsPlain(ws[i].arg)))
    && forall i :: 0 < i < |ws| ==> ws[i].gap != []
  }

  function Form(w: Word): bytes { if w.quoted then Quote(w.arg) else w.arg }

  function Spell(w: Word): bytes { w.gap + Form(w) }

  function Spoken(w: Word): Command { [w.arg] }

  /** The line of some words, with blanks behind the last one. */
  function WordLine(ws: seq<Word>, trail: bytes): bytes { Collect(ws, Spell) + trail }

  lemma {:induction false} SkipsGap(line: bytes, i: nat, j: nat)
    requires i <= j <= |line| && (forall k :: i <= k < j ==> IsGap(line[k])) && (j < |line| ==> !IsGap(line[j]))
    ensures SkipGap(line, i) == j
    decreases j - i
  {
    if i < j {
      SkipsGap(line, i + 1, j);
    }
  }

  lemma {:induction false} EndsPlain(line: bytes, i: nat, j: nat)
    requires i <= j <= |line| && (forall k :: i <= k < j ==> !IsGap(line[k])) && (j < |line| ==> IsGap(line[j]))
    ensures PlainEnd(line, i) == j
    decreases j - i
  {
    if i < j {
      EndsPlain(line, i + 1, j);
    }
  }

  /** A word at `j` is read as its argument, if a blank or the end of the line follows it. */
  lemma TokenOfWord(line: bytes, j: nat, w: Word, rest: bytes)
    requires j <= |line| && line[j..] == Form(w) + rest && (!w.quoted ==> IsPlain(w.arg))
    requires rest != [] ==> IsGap(rest[0])
    ensures j < |line| && !IsGap(line[j]) && TokenAt(line, j) == (w.arg, j + |Form(w)|)
  {
    hide Quote, Quoted;
    if w.quoted {
      TokenOfQuote(line, j, w.arg, rest);
    } else {
      Advance(line, j, w.arg, rest);
      var end := j + |w.arg|;
      assert forall k :: j <= k < end ==> line[k] == line[j..end][k - j];
      assert end < |line| ==> line[end] == line[end..][0];
      assert line[j] == w.arg[0];
      EndsPlain(line, j, end);
    }
  }

  /** The first word of what is left of a line. */
  lemma TokensOfFirst(line: bytes, i: nat, w: Word, rest: bytes)
    requires i <= |line| && line[i..] == w.gap + (Form(w) + rest)
    requires AllGaps(w.gap, 0) && (!w.quoted ==> IsPlain(w.arg)) && (rest != [] ==> IsGap(rest[0]))
    ensures
      var next := i + |w.gap| + |Form(w)|;
      next <= |line| && line[next..] == rest && Tokens(line, i) == [w.arg] + Tokens(line, next)
  {
    hide Tokens, Form, TokenAt, IsPlain;
    Advance(line, i, w.gap, Form(w) + rest);
    var j := i + |w.gap|;
    TokenOfWord(line, j, w, rest);
    Advance(line, j, Form(w), rest);
    forall k | i <= k < j
      ensures IsGap(line[k])
    {
      assert line[k] == line[i..j][k - i];
    }
    SkipsGap(line, i, j);
    TokensFrom(line, i, j);
  }

  lemma {:induction false} TokensOfWords(line: bytes, i: nat, ws: seq<Word>, trail: bytes)
    requires i <= |line| && line[i..] == WordLine(ws, trail) && WellSpelled(ws) && AllGaps(trail, 0)
    ensures Tokens(line, i) == Collect(ws, Spoken)
    decreases |ws|
  {
    hide Tokens, Form, IsPlain;
    if ws == [] {
      assert forall k :: i <= k < |line| ==> line[k] == trail[k - i];
      BlankHasNoTokens(line, i);
    } else {
      var w, later := ws[0], ws[1..];
      var rest := WordLine(later, trail);
      WordLineParts(ws, trail);
      assert WellSpelled(later) && (later != [] ==> later[0].gap != []);
      GapFirst(later, trail);
      TokensOfFirst(line, i, w, rest);
      TokensOfWords(line, i + |w.gap| + |Form(w)|, later, trail);
    }
  }

  lemma WordLineParts(ws: seq<Word>, trail: bytes)
    requires ws != []
    ensures WordLine(ws, trail) == ws[0].gap + (Form(ws[0]) + WordLine(ws[1..], trail))
  {
    hide Form;
  }

  lemma GapFirst(ws: seq<Word>, trail: bytes)
    requires WellSpelled(ws) && (ws != [] ==> ws[0].gap != []) && AllGaps(trail, 0)
    ensures WordLine(ws, trail) != [] ==> IsGap(WordLine(ws, trail)[0])
  {
    hide Form;
  }

  lemma TokensFrom(line: bytes, i: nat, j: nat)
    requires i <= j < |line| && SkipGap(line, i) == j && !IsGap(line[j])
    ensures Tokens(line, i) == [TokenAt(line, j).0] + Tokens(line, TokenAt(line, j).1)
  {
  }

  lemma SpellIsOneLine(w: Word)
    requires AllGaps(w.gap, 0) && (!w.quoted ==> IsPlain(w.arg))
    ensures CR !in Spell(w) && LF !in Spell(w)
  {
    EscapeIsOneLine(w.arg);
  }

  lemma {:induction false} WordsAreOneLine(ws: seq<Word>)
    requires WellSpelled(ws)
    ensures CR !in Collect(ws, Spell) && LF !in Collect(ws, Spell)
    decreases |ws|
  {
    hide Spell;
    if ws != [] {
      SpellIsOneLine(ws[0]);
      WordsAreOneLine(ws[1..]);
    }
  }

  lemma {:induction false} WordsHaveArgs(ws: seq<Word>)
    ensures |Collect(ws, Spoken)| == |ws|
    ensures forall i :: 0 <= i < |ws| ==> Collect(ws, Spoken)[i] == ws[i].arg
  {
    if ws != [] {
      WordsHaveArgs(ws[1..]);
    }
  }

  lemma FirstByte(ws: seq<Word>, trail: bytes)
    requires ws != [] && WellSpelled(ws)
    ensures WordLine(ws, trail) != []
    ensures WordLine(ws, trail)[0] ==
      if ws[0].gap != [] then ws[0].gap[0] else if ws[0].quoted then QUOTE else ws[0].arg[0]
  {
  }

  /** Words that a line may begin with: not with the byte that begins a multibulk frame. */
  predicate StartsLine(ws: seq<Word>) {
    ws != [] && (ws[0].gap == [] && !ws[0].quoted && ws[0].arg != [] ==> ws[0].arg[0] != STAR)
  }

  /**
   * Every line of words, quoted or plain, with any blanks around them, is the command of their arguments;
   * only the command name comes back in upper case, and exactly the line and its CR LF are consumed.
   */
  lemma InlineOfWords(ws: seq<Word>, trail: bytes, tail: bytes)
    requires StartsLine(ws) && WellSpelled(ws) && AllGaps(trail, 0)
    ensures
      var args, line := Collect(ws, Spoken), WordLine(ws, trail);
      && |args| == |ws| && CR !in line && LF !in line
      && Parse(line + CRLF + tail) == Complete([args[0 := Upper(args[0])]], |line| + 2)
  {
    hide Collect, Tokens, Form;
    var line := WordLine(ws, trail);
    var data := line + CRLF + tail;
    WordsAreOneLine(ws);
    WordsHaveArgs(ws);
    FirstByte(ws, trail);
    forall k | 0 <= k < |line|
      ensures !IsCrlf(data, k) && line[k] != CR && line[k] != LF
    {
      assert k >= |line| - |trail| ==> line[k] == trail[k - (|line| - |trail|)];
      assert k < |line| - |trail| ==> line[k] == Collect(ws, Spell)[k];
      assert data[k] == line[k];
    }
    FirstCrlf(data, 0, |line|);
    assert data[..|line|] == line && line[0..] == line && data[0] == line[0];
    TokensOfWords(line, 0, ws, trail);
  }

  /** The same line ended by a bare LF, as long as no CR LF has arrived: the LF alone is consumed with it. */
  lemma BareLineOfWords(ws: seq<Word>, trail: bytes, tail: bytes)
    requires StartsLine(ws) && WellSpelled(ws) && AllGaps(trail, 0)
    requires CrlfAt(WordLine(ws, trail) + [LF] + tail, 0).None?
    ensures
      var args, line := Collect(ws, Spoken), WordLine(ws, trail);
      && |args| == |ws| && Parse(line + [LF] + tail) == Complete([args[0 := Upper(args[0])]], |line| + 1)
  {
    hide Collect, Tokens, Form, WordLine, Spell;
    var line := WordLine(ws, trail);
    var data := line + [LF] + tail;
    InlineOfWords(ws, trail, tail);
    FirstByte(ws, trail);
    WordsHaveArgs(ws);
    assert line[|line| - 1] != CR && data[|line| - 1] == line[|line| - 1] && data[0] == line[0];
    assert forall k :: 0 <= k < |line| ==> data[k] == line[k];
    FirstLf(data, 0, |line|);
    assert data[..|line|] == line && line[0..] == line;
    TokensOfWords(line, 0, ws, trail);
  }

  lemma {:induction false} FirstLf(v: bytes, from: nat, i: nat)
    requires from <= i < |v| && v[i] == LF && forall k :: from <= k < i ==> v[k] != LF
    ensures LfAt(v, from) == Some(i)
    decreases i - from
  {
    if from < i {
      FirstLf(v, from + 1, i);
    }
  }

  /** A quote that is never closed runs to the end of the line. */
  lemma UnclosedQuote(arg: bytes)
    requires QUOTE !in arg && BACKSLASH !in arg
    ensures Tokens([QUOTE] + arg, 0) == [arg]
  {
    var line := [QUOTE] + arg;
    RunsToTheEnd(line, 1);
    assert line[1..] == arg && SkipGap(line, 0) == 0;
    TokensFrom(line, 0, 0);
    TokensAtEnd(line);
  }

  lemma {:induction false} RunsToTheEnd(line: bytes, i: nat)
    requires i <= |line| && forall k :: i <= k < |line| ==> line[k] != QUOTE && line[k] != BACKSLASH
    ensures Quoted(line, i) == (line[i..], |line|)
    decreases |line| - i
  {
    if i < |line| {
      RunsToTheEnd(line, i + 1);
      assert line[i..] == [line[i]] + line[i + 1..];
    }
  }

  /** Arguments joined by single spaces. */
  function PlainLine(args: Command): bytes {
    if args == [] then []
    else if |args| == 1 then args[0]
    else args[0] + [SPACE] + PlainLine(args[1..])
  }

  function PlainWords(gap: bytes, args: Command): seq<Word>
    decreases |args|
  {
    if args == [] then [] else [Word(gap, false, args[0])] + PlainWords([SPACE], args[1..])
  }

  lemma {:induction false} PlainWordsAreSpelled(gap: bytes, args: Command)
    requires AllGaps(gap, 0) && forall i :: 0 <= i < |args| ==> IsPlain(args[i])
    ensures |PlainWords(gap, args)| == |args| && WellSpelled(PlainWords(gap, args))
    ensures args != [] ==> PlainWords(gap, args)[0] == Word(gap, false, args[0])
    decreases |args|
  {
    hide IsPlain;
    if args != [] {
      PlainWordsAreSpelled([SPACE], args[1..]);
    }
  }

  lemma {:induction false} PlainWordsSpeak(gap: bytes, args: Command)
    ensures Collect(PlainWords(gap, args), Spoken) == args
    decreases |args|
  {
    if args != [] {
      PlainWordsSpeak([SPACE], args[1..]);
      CollectAppend([Word(gap, false, args[0])], PlainWords([SPACE], args[1..]), Spoken);
      CollectOne(Word(gap, false, args[0]), Spoken);
      assert [args[0]] + args[1..] == args;
    }
  }

  lemma {:induction false} PlainWordsSpell(gap: bytes, args: Command)
    requires args != []
    ensures Collect(PlainWords(gap, args), Spell) == gap + PlainLine(args)
    decreases |args|
  {
    hide Collect;
    var w, later := Word(gap, false, args[0]), PlainWords([SPACE], args[1..]);
    CollectAppend([w], later, Spell);
    CollectOne(w, Spell);
    if |args| == 1 {
      CollectNothing(later, Spell);
      assert gap + args[0] + [] == gap + args[0];
    } else {
      PlainWordsSpell([SPACE], args[1..]);
      var rest := PlainLine(args[1..]);
      assert gap + args[0] + ([SPACE] + rest) == gap + (args[0] + [SPACE] + rest);
    }
  }

  /** The common case, `SET key value`: plain arguments with single spaces between them. */
  lemma PlainCommand(args: Command, tail: bytes)
    requires forall i :: 0 <= i < |args| ==> IsPlain(args[i])
    requires args != [] && args[0] != [] && args[0][0] != STAR
    ensures Parse(PlainLine(args) + CRLF + tail) == Complete([args[0 := Upper(args[0])]], |PlainLine(args)| + 2)
  {
    hide Parse, PlainLine, Collect;
    var ws := PlainWords([], args);
    PlainWordsAreSpelled([], args);
    PlainWordsSpeak([], args);
    PlainWordsSpell([], args);
    assert [] + PlainLine(args) + [] == PlainLine(args);
    InlineOfWords(ws, [], tail);
  }

  /** What a backslash and the byte behind it stand for between quotes: the C escapes for LF, CR and tab. */
  lemma BackslashReads(line: bytes, i: nat)
    requires i + 1 < |line| && line[i] == 92
    ensures
      var b := line[i + 1];
      Quoted(line, i).0 == [if b == 110 then 10 else if b == 114 then 13 else if b == 116 then 9 else b]
                           + Quoted(line, i + 2).0
  {
  }

  /** Names are put in upper case letter by letter, and nothing but letters changes. */
  lemma UpperLetters(s: bytes, i: nat)
    requires i < |s|
    ensures |Upper(s)| == |s|
    ensures Upper(s)[i] == if 97 <= s[i] < 97 + 26 then 65 + (s[i] - 97) else s[i]
  {
  }

  // ---- how many commands a complete frame holds ----

  /** Where the line of an inline frame ends, before CR LF or a bare LF. */
  function LineEnd(data: bytes): nat {
    match CrlfAt(data, 0)
    case Some(crlf) => crlf
    case None => (match LfAt(data, 0) case Some(lf) => BareLineEnd(data, lf) case None => 0)
  }

  lemma {:induction false} ArgsAreOneCommand(data: bytes, pos: nat, n: nat, args: Command)
    ensures
      var r := ParseArgs(data, pos, n, args);
      r.Complete? ==> |r.cmds| == 1
    decreases n
  {
    hide ArgAt;
    if n > 0 && ArgAt(data, pos).Arg? {
      ArgsAreOneCommand(data, ArgAt(data, pos).next, n - 1, args + [ArgAt(data, pos).arg]);
    }
  }

  /**
   * A complete frame holds at most one command; it holds one if and only if it is a multibulk frame or its
   * line has a byte that is no blank.
   */
  lemma CompleteHoldsOneCommand(data: bytes)
    requires Parse(data).Complete?
    ensures data != [] && LineEnd(data) <= |data| && |Parse(data).cmds| <= 1
    ensures |Parse(data).cmds| == 1 <==>
      data[0] == STAR || exists j :: 0 <= j < LineEnd(data) && !IsGap(data[j])
  {
    hide Tokens, ParseArgs, IntegerAt;
    if data[0] == STAR {
      var head := IntegerAt(data, 1).value;
      ArgsAreOneCommand(data, head.1, head.0, []);
    } else {
      var line := data[..LineEnd(data)];
      BlankHasNoTokens(line, 0);
      assert forall j :: 0 <= j < |line| ==> line[j] == data[j];
    }
  }

  /** A blank line is complete and holds none. */
  lemma BlankLineHoldsNone()
    ensures Parse(CRLF) == Complete([], 2)
  {
    assert IsCrlf(CRLF, 0);
    FirstCrlf(CRLF, 0, 0);
    BlankHasNoTokens([], 0);
    assert CRLF[..0] == [];
  }
}
