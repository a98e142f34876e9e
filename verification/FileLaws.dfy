/** The append-only file in the words it holds: each record is the command a client would send for it. */
module FileLaws {
  import opened ByteStrings
  import opened RespParser
  import opened RespLaws
  import opened Sequences
  import opened Aof
  import opened AofLaws
  import opened Shards
  import opened StoreRuns
  import opened Commands
  import opened CommandLaws
  import opened Recovery

  lemma FileWords()
    ensures SET == Ascii("SET") && DEL == Ascii("DEL") && PXAT == Ascii("PXAT") && PEXPIREAT == Ascii("PEXPIREAT")
  {
  }

  /** The command that a record is written as. */
  lemma RecordIsCommand(k: bytes, v: bytes, d: int)
    ensures Encode(Set(k, v)) == Array([Ascii("SET"), k, v])
    ensures Encode(SetPxat(k, v, d)) == Array([Ascii("SET"), k, v, Ascii("PXAT"), Decimal(d)])
    ensures Encode(Del(k)) == Array([Ascii("DEL"), k])
    ensures Encode(PExpireAt(k, d)) == Array([Ascii("PEXPIREAT"), k, Decimal(d)])
  {
    hide Ascii, Encode, Array;
    FileWords();
    EncodeIsArray(Set(k, v));
    EncodeIsArray(SetPxat(k, v, d));
    EncodeIsArray(Del(k));
    EncodeIsArray(PExpireAt(k, d));
  }

  lemma BulkByteByByte(b: byte)
    ensures BulkString([b]) == [36, 49, 13, 10, b, 13, 10]
    ensures BulkString([83, 69, 84]) == [36, 51, 13, 10, 83, 69, 84, 13, 10]
  {
    assert Decimal(1) == [49] && Decimal(3) == [51];
  }

  /** One of them byte by byte: `*3 $3 SET $1 k $1 v`, CR LF behind each. */
  lemma SetByteByByte(k: byte, v: byte)
    ensures Encode(Set([k], [v])) ==
      [42, 51, 13, 10] + [36, 51, 13, 10, 83, 69, 84, 13, 10]
      + [36, 49, 13, 10, k, 13, 10] + [36, 49, 13, 10, v, 13, 10]
  {
    hide BulkString;
    BulkByteByByte(k);
    BulkByteByByte(v);
  }

  /** The request parser, which the file never meets, reads each record as the words it is made of. */
  lemma RecordParses(k: bytes, v: bytes, d: int, tail: bytes)
    requires Fits(Set(k, v)) && Fits(SetPxat(k, v, d)) && Fits(Del(k)) && Fits(PExpireAt(k, d))
    ensures Parse(Encode(Set(k, v)) + tail) == Complete([[Ascii("SET"), k, v]], |Encode(Set(k, v))|)
    ensures Parse(Encode(SetPxat(k, v, d)) + tail)
         == Complete([[Ascii("SET"), k, v, Ascii("PXAT"), Decimal(d)]], |Encode(SetPxat(k, v, d))|)
    ensures Parse(Encode(Del(k)) + tail) == Complete([[Ascii("DEL"), k]], |Encode(Del(k))|)
    ensures Parse(Encode(PExpireAt(k, d)) + tail)
         == Complete([[Ascii("PEXPIREAT"), k, Decimal(d)]], |Encode(PExpireAt(k, d))|)
  {
    hide Ascii, Encode, Array, Parse, Sizes;
    FileWords();
    RecordIsCommand(k, v, d);
    RoundTrip([Ascii("SET"), k, v], tail);
    RoundTrip([Ascii("SET"), k, v, Ascii("PXAT"), Decimal(d)], tail);
    RoundTrip([Ascii("DEL"), k], tail);
    RoundTrip([Ascii("PEXPIREAT"), k, Decimal(d)], tail);
  }

  /** What a start makes of a file of one command: the calls, in the words of the file. */
  lemma ReplayOfOne(r: Record)
    requires Fits(r) && (r.SetPxat? || r.PExpireAt? ==> r.deadline > 0)
    ensures ReplayFrom(Start(Encode(r))).0 == [r]
  {
    hide ReplayFrom, Encode, Fits;
    CollectOne(r, Encode);
    CollectOne(r, Kept);
    ReplayOfLog([r]);
  }

  /**
   * A file that holds a SET or DEL as a client sends it does to the store, at start-up, what that command
   * does when it is sent; so do the two forms with a deadline, while it lies ahead.
   */
  lemma FileActsAsCommand(k: bytes, v: bytes, m: Table, t: Times, r: Reading)
    requires Fits(Set(k, v)) && Fits(Del(k))
    ensures
      var calls := ReplayFrom(Start(Array([Ascii("SET"), k, v]))).0;
      |calls| == 1 && Restore(m, calls[0], r) == EffectOf([Ascii("SET"), k, v], m, t)
    ensures
      var calls := ReplayFrom(Start(Array([Ascii("DEL"), k]))).0;
      |calls| == 1 && Restore(m, calls[0], r) == EffectOf([Ascii("DEL"), k], m, t)
  {
    hide Ascii, Encode, Array, ReplayFrom, Registered, Fits;
    RecordIsCommand(k, v, 1);
    ReplayOfOne(Set(k, v));
    ReplayOfOne(Del(k));
    CommandTable();
    Known([Ascii("SET"), k, v], SetCmd, m, t, []);
    DelLaw([k], m, t, []);
    assert [Ascii("DEL")] + [k] == [Ascii("DEL"), k] && (set x | x in [k]) == {k};
  }

  /** With a deadline d that lies ahead: the key shows the value, or the value it had, until exactly d. */
  lemma FileKeepsDeadline(k: bytes, v: bytes, d: int, m: Table, r: Reading, x: bytes, now: int)
    requires Fits(SetPxat(k, v, d)) && Fits(PExpireAt(k, d)) && r.due < d && 0 < d && r.due <= r.check <= now
    ensures
      var calls := ReplayFrom(Start(Array([Ascii("SET"), k, v, Ascii("PXAT"), Decimal(d)]))).0;
      && |calls| == 1
      && Shown(Restore(m, calls[0], r), x, now) ==
           if x != k then Shown(m, x, now) else if now < d then Some(Entry(v, d)) else None
    ensures
      var calls, shown := ReplayFrom(Start(Array([Ascii("PEXPIREAT"), k, Decimal(d)]))).0, Shown(m, k, r.check);
      && |calls| == 1
      && Shown(Restore(m, calls[0], r), x, now) ==
           if x != k || shown.None? then Shown(m, x, now)
           else if now < d then Some(Entry(shown.value.value, d))
           else None
  {
    hide Ascii, Encode, Array, ReplayFrom, Fits;
    RecordIsCommand(k, v, d);
    ReplayOfOne(SetPxat(k, v, d));
    ReplayOfOne(PExpireAt(k, d));
  }

  /** With a deadline that has passed at the reading: SET PXAT does nothing, PEXPIREAT deletes the key. */
  lemma FileDropsPassed(k: bytes, v: bytes, d: int, m: Table, r: Reading)
    requires Fits(SetPxat(k, v, d)) && Fits(PExpireAt(k, d)) && 0 < d <= r.due
    ensures
      var calls := ReplayFrom(Start(Array([Ascii("SET"), k, v, Ascii("PXAT"), Decimal(d)]))).0;
      |calls| == 1 && Restore(m, calls[0], r) == m
    ensures
      var calls := ReplayFrom(Start(Array([Ascii("PEXPIREAT"), k, Decimal(d)]))).0;
      |calls| == 1 && Restore(m, calls[0], r) == m - {k}
  {
    hide Ascii, Encode, Array, ReplayFrom, Fits;
    RecordIsCommand(k, v, d);
    ReplayOfOne(SetPxat(k, v, d));
    ReplayOfOne(PExpireAt(k, d));
  }

  // ---- what the reader makes of other files ----

  /**
   * Which words make the reader call which callback, and with what: SET with a key and a value, SET with
   * PXAT and a positive number, DEL with one key, PEXPIREAT with a key and a positive number. Nothing else.
   */
  lemma InterpretIsExact(args: Command, k: bytes, v: bytes, d: int)
    ensures |Interpret(args)| <= 1
    ensures Interpret(args) == [Set(k, v)] <==> args == [Ascii("SET"), k, v]
    ensures Interpret(args) == [Del(k)] <==> args == [Ascii("DEL"), k]
    ensures Interpret(args) == [SetPxat(k, v, d)] <==>
      && |args| == 5 && args[..4] == [Ascii("SET"), k, v, Ascii("PXAT")]
      && StringToNumber(args[4], INT64_MIN, INT64_MAX) == Some(d) && d > 0
    ensures Interpret(args) == [PExpireAt(k, d)] <==>
      && |args| == 3 && args[..2] == [Ascii("PEXPIREAT"), k]
      && StringToNumber(args[2], INT64_MIN, INT64_MAX) == Some(d) && d > 0
  {
    FileWords();
    assert SET[0] != DEL[0] && SET[0] != PEXPIREAT[0] && DEL[0] != PEXPIREAT[0];
    hide Ascii, StringToNumber;
  }

  /** Numbers in the file may have blanks and a plus before them and text behind them. */
  lemma NumberInText(n: nat, rest: bytes, lo: int, hi: int)
    requires lo <= n <= hi && (rest != [] ==> !IsDigit(rest[0]))
    ensures StringToNumber(Digits(n) + rest, lo, hi) == Some(n)
    ensures StringToNumber([43] + (Digits(n) + rest), lo, hi) == Some(n)
    ensures StringToNumber([32] + (Digits(n) + rest), lo, hi) == Some(n)
  {
    var ds := Digits(n);
    var s := ds + rest;
    DigitRunStops(ds, rest);
    ValueOfDigits(n);
    assert IsDigit(ds[0]) && s[0] == ds[0] && s[..|ds|] == ds;
    assert ([43] + s)[1..] == s && ([32] + s)[1..] == s;
  }

  /** The first line of a file, whatever it is. */
  lemma FirstLine(text: bytes, tail: bytes)
    requires LF !in text
    ensures
      var (f, line) := GetLine(Start(text + CRLF + tail));
      f.Good() && f.Ahead() == tail && line == Some(text + [CR]) && StripCr(text + [CR]) == text
  {
    var f := Start(text + CRLF + tail);
    assert f.data[0..|text|] == text && f.data[|text|..|text| + 2] == CRLF;
    forall k | 0 <= k < |text|
      ensures f.data[k] != LF
    {
      assert f.data[k] == text[k];
    }
    LineEndsAt(f, text);
    assert f.data[|text| + 2..] == tail;
    assert (text + [CR])[..|text|] == text;
  }

  /** A negative argument count ends the process; a count of 0, or a line that is no count, ends the replay. */
  lemma StrangeFirstLines(n: int, text: bytes, tail: bytes)
    requires INT32_MIN <= n < 0 && LF !in text && text != [] && text[0] != STAR
    ensures ReplayFrom(Start([STAR] + Decimal(n) + CRLF + tail)) == ([], false)
    ensures ReplayFrom(Start([STAR, 48] + CRLF + tail)) == ([], true)
    ensures ReplayFrom(Start(text + CRLF + tail)) == ([], true)
  {
    hide StringToNumber, Decimal, ReadArgs, StripCr, GetLine, Interpret;
    DecimalIsOneLine(n);
    FirstLine([STAR] + Decimal(n), tail);
    StringToNumberOfDecimal(n, INT32_MIN, INT32_MAX);
    assert ([STAR] + Decimal(n))[1..] == Decimal(n);
    assert ReplayTurn(Start([STAR] + Decimal(n) + CRLF + tail)) == LengthError;
    FirstLine(text, tail);
    assert ReplayTurn(Start(text + CRLF + tail)) == End;
    EmptyArrayEnds(tail);
  }

  lemma EmptyArrayEnds(tail: bytes)
    ensures ReplayFrom(Start([STAR, 48] + CRLF + tail)) == ([], true)
  {
    hide StringToNumber, StripCr, GetLine, Interpret;
    FirstLine([STAR, 48], tail);
    StringToNumberOfDecimal(0, INT32_MIN, INT32_MAX);
    assert Decimal(0) == [48] && [STAR, 48][1..] == [48];
    assert ReplayTurn(Start([STAR, 48] + CRLF + tail)) == End;
  }

  /** A bulk string of negative length is read as the empty one; a line that is no length is not read. */
  lemma StrangeLengths(n: int, text: bytes, tail: bytes)
    requires INT64_MIN <= n < 0 && LF !in text && (text != [] ==> text[0] != DOLLAR)
    ensures
      var (f, arg) := ReadBulk(Start([DOLLAR] + Decimal(n) + CRLF + tail));
      arg == Some([]) && f.Good() && f.Ahead() == tail
    ensures ReadBulk(Start(text + CRLF + tail)).1 == None
  {
    hide StringToNumber, Decimal, Read, StripCr, GetLine;
    DecimalIsOneLine(n);
    FirstLine([DOLLAR] + Decimal(n), tail);
    StringToNumberOfDecimal(n, INT64_MIN, INT64_MAX);
    assert ([DOLLAR] + Decimal(n))[1..] == Decimal(n);
    FirstLine(text, tail);
  }

  /** A blank line is skipped. */
  lemma BlankLineIsSkipped(tail: bytes)
    requires tail != []
    ensures
      var turn := ReplayTurn(Start(CRLF + tail));
      turn.Next? && turn.calls == [] && turn.f.Good() && turn.f.Ahead() == tail
  {
    hide StringToNumber, ReadArgs, GetLine, Interpret;
    FirstLine([], tail);
    assert [] + CRLF + tail == CRLF + tail && StripCr([] + [CR]) == [];
  }
}
