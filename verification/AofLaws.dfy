/** The replay reader undoes the writer, also on a file cut at any byte. */
module AofLaws {
  import opened ByteStrings
  import opened RespParser
  import opened RespLaws
  import opened Sequences
  import opened Aof

  // ---- records are encoded commands ----

  function Args(r: Record): Command {
    match r
    case Set(k, v) => [SET, k, v]
    case SetPxat(k, v, d) => [SET, k, v, PXAT, Decimal(d)]
    case Del(k) => [DEL, k]
    case PExpireAt(k, d) => [PEXPIREAT, k, Decimal(d)]
  }

  lemma BulksOf2(a: bytes, b: bytes)
    ensures Bulks([a, b]) == BulkString(a) + BulkString(b)
  {
    hide BulkString;
    assert [a, b] == [a] + [b];
    CollectPush([a], b, BulkString);
    CollectOne(a, BulkString);
  }

  lemma BulksOf3(a: bytes, b: bytes, c: bytes)
    ensures Bulks([a, b, c]) == BulkString(a) + BulkString(b) + BulkString(c)
  {
    hide BulkString, Collect;
    assert [a, b, c] == [a, b] + [c];
    CollectPush([a, b], c, BulkString);
    BulksOf2(a, b);
  }

  lemma BulksOf5(a: bytes, b: bytes, c: bytes, d: bytes, e: bytes)
    ensures Bulks([a, b, c, d, e]) == BulkString(a) + BulkString(b) + BulkString(c) + BulkString(d) + BulkString(e)
  {
    hide BulkString, Collect;
    assert [a, b, c, d, e] == [a, b, c, d] + [e] && [a, b, c, d] == [a, b, c] + [d];
    CollectPush([a, b, c], d, BulkString);
    CollectPush([a, b, c, d], e, BulkString);
    BulksOf3(a, b, c);
  }

  /** Every record is the multibulk encoding of its arguments. */
  lemma EncodeIsArray(r: Record)
    ensures Encode(r) == Array(Args(r))
  {
    hide BulkString, Collect, Bulks;
    assert Decimal(2) == [50] && Decimal(3) == [51] && Decimal(5) == [53];
    match r
    case Set(k, v) => BulksOf3(SET, k, v); ArrayOf3([SET, k, v]);
    case SetPxat(k, v, d) => BulksOf5(SET, k, v, PXAT, Decimal(d)); ArrayOf5([SET, k, v, PXAT, Decimal(d)]);
    case Del(k) => BulksOf2(DEL, k); ArrayOf2([DEL, k]);
    case PExpireAt(k, d) => BulksOf3(PEXPIREAT, k, Decimal(d)); ArrayOf3([PEXPIREAT, k, Decimal(d)]);
  }

  lemma ArrayOf2(args: Command)
    requires |args| == 2
    ensures Array(args) == [STAR, 50, CR, LF] + Bulks(args)
  {
  }

  lemma ArrayOf3(args: Command)
    requires |args| == 3
    ensures Array(args) == [STAR, 51, CR, LF] + Bulks(args)
  {
  }

  lemma ArrayOf5(args: Command)
    requires |args| == 5
    ensures Array(args) == [STAR, 53, CR, LF] + Bulks(args)
  {
  }

  /** A record whose deadline is not positive is read but invokes no callback. */
  function Kept(r: Record): seq<Record> {
    if (r.SetPxat? || r.PExpireAt?) && r.deadline <= 0 then [] else [r]
  }

  predicate Fits(r: Record) {
    Sizes(Args(r)) && (r.SetPxat? || r.PExpireAt? ==> INT64_MIN <= r.deadline <= INT64_MAX)
  }

  lemma InterpretOfArgs(r: Record)
    requires Fits(r)
    ensures Interpret(Args(r)) == Kept(r)
  {
    hide StringToNumber, Decimal, Sizes;
    assert SET[0] != DEL[0] && SET[0] != PEXPIREAT[0] && DEL[0] != PEXPIREAT[0];
    if r.SetPxat? || r.PExpireAt? {
      StringToNumberOfDecimal(r.deadline, INT64_MIN, INT64_MAX);
    }
  }

  // ---- one line ----

  /** A line that is all there: it is read, and the cursor is past its LF. */
  lemma LineWhole(f: Input, mark: byte, digits: bytes, tail: bytes)
    requires f.Valid() && f.Good() && mark != LF && AllDigits(digits)
    requires f.Ahead() == [mark] + digits + CRLF + tail
    ensures
      var (f1, line) := GetLine(f);
      && f1.Good() && f1.Ahead() == tail
      && line.Some? && StripCr(line.value) == [mark] + digits
  {
    var text := [mark] + digits;
    assert text[1..] == digits;
    TextLine(f, text, tail);
    assert StripCr(text + [CR]) == text;
  }

  lemma TextLine(f: Input, text: bytes, tail: bytes)
    requires f.Valid() && f.Good() && f.Ahead() == text + CRLF + tail
    requires text != [] && text[0] != LF && AllDigits(text[1..])
    ensures GetLine(f).0.Good() && GetLine(f).0.Ahead() == tail && GetLine(f).1 == Some(text + [CR])
  {
    hide AllDigits;
    var end := f.pos + |text|;
    assert text + CRLF + tail == text + (CRLF + tail);
    Advance(f.data, f.pos, text, CRLF + tail);
    Advance(f.data, end, CRLF, tail);
    NoLfInText(f, text);
    LineEndsAt(f, text);
  }

  lemma LineEndsAt(f: Input, text: bytes)
    requires f.Valid() && f.Good() && f.pos + |text| + 2 <= |f.data|
    requires f.data[f.pos..f.pos + |text|] == text && f.data[f.pos + |text|..f.pos + |text| + 2] == CRLF
    requires forall k :: f.pos <= k < f.pos + |text| ==> f.data[k] != LF
    ensures GetLine(f) == (f.(pos := f.pos + |text| + 2), Some(text + [CR]))
  {
    var end := f.pos + |text|;
    var trailer := f.data[end..end + 2];
    assert trailer[0] == f.data[end] && trailer[1] == f.data[end + 1];
    assert trailer[0] == CR && trailer[1] == LF;
    assert LfAt(f.data, f.pos) == Some(end + 1);
    assert f.data[f.pos..end + 1] == text + [CR];
  }

  lemma NoLfInText(f: Input, text: bytes)
    requires f.Valid() && f.pos + |text| <= |f.data| && f.data[f.pos..f.pos + |text|] == text
    requires text != [] && text[0] != LF && AllDigits(text[1..])
    ensures forall k :: f.pos <= k < f.pos + |text| ==> f.data[k] != LF
  {
    forall k | f.pos <= k < f.pos + |text|
      ensures f.data[k] != LF
    {
      assert f.data[k] == text[k - f.pos];
      if k > f.pos {
        assert IsDigit(text[1..][k - f.pos - 1]);
      }
    }
  }

  /** A line cut before its LF: whatever is read, the stream is at its end, and only digits follow the mark. */
  lemma LineCut(f: Input, mark: byte, digits: bytes, m: nat)
    requires f.Valid() && f.Good() && mark != LF && mark != CR && AllDigits(digits)
    requires m < |[mark] + digits + CRLF| && f.Ahead() == ([mark] + digits + CRLF)[..m]
    ensures
      var (f1, line) := GetLine(f);
      && !f1.Good()
      && (line.Some? ==>
            var hdr := StripCr(line.value);
            hdr != [] && hdr[0] == mark && AllDigits(hdr[1..]))
  {
    var text := [mark] + digits;
    if m > 0 {
      var part := if m <= |text| then text[..m] else text;
      var left: bytes := if m <= |text| then [] else [CR];
      assert f.Ahead() == part + left;
      assert part[1..] == if m <= |text| then digits[..m - 1] else digits;
      Advance(f.data, f.pos, part, left);
      NoLfInText(f, part);
      assert left == [CR] ==> f.data[f.pos + |part|..] == [CR];
      assert LfAt(f.data, f.pos).None?;
      StripPart(part, left);
    }
  }

  lemma StripPart(part: bytes, left: bytes)
    requires part != [] && part[0] != CR && AllDigits(part[1..]) && (left == [] || left == [CR])
    ensures StripCr(part + left) == part
  {
    if left == [] {
      assert part + left == part;
      if |part| > 1 {
        assert IsDigit(part[1..][|part| - 2]);
      }
    } else {
      assert (part + left)[..|part|] == part;
    }
  }

  lemma DigitsAreNotNegative(text: bytes, lo: int, hi: int)
    requires AllDigits(text)
    ensures StringToNumber(text, lo, hi).Some? ==> StringToNumber(text, lo, hi).value >= 0
  {
    if text != [] {
      assert IsDigit(text[0]);
    }
  }

  // ---- one bulk string ----

  lemma BulkParts(item: bytes, tail: bytes)
    ensures BulkString(item) + tail == [DOLLAR] + Digits(|item|) + CRLF + (item + (CRLF + tail))
    ensures |BulkString(item)| == |[DOLLAR] + Digits(|item|) + CRLF| + |item| + 2
  {
  }

  lemma NumberOf(mark: byte, n: nat, hi: int)
    requires n <= hi
    ensures StringToNumber(([mark] + Digits(n))[1..], -hi - 1, hi) == Some(n)
  {
    hide StringToNumber;
    assert ([mark] + Digits(n))[1..] == Decimal(n);
    StringToNumberOfDecimal(n, -hi - 1, hi);
  }

  /** `read_bulk` after its header line: `n` bytes, then a line that is thrown away. */
  function BulkBody(f: Input, n: nat): (Input, Option<bytes>)
    requires f.Valid()
  {
    if Read(f, n).1.None? then (Read(f, n).0, None) else (GetLine(Read(f, n).0).0, Read(f, n).1)
  }

  lemma BulkAfterHeader(f: Input, hdr: bytes, n: nat)
    requires f.Valid() && GetLine(f).1.Some? && StripCr(GetLine(f).1.value) == hdr
    requires hdr != [] && hdr[0] == DOLLAR && StringToNumber(hdr[1..], INT64_MIN, INT64_MAX) == Some(n)
    ensures ReadBulk(f) == BulkBody(GetLine(f).0, n)
  {
    hide StringToNumber, Read, GetLine, StripCr;
  }

  lemma ReadBulkHeader(f: Input, item: bytes, tail: bytes)
    requires f.Valid() && f.Good() && |item| <= INT64_MAX
    requires f.Ahead() == [DOLLAR] + Digits(|item|) + CRLF + tail
    ensures GetLine(f).0.Good() && GetLine(f).0.Ahead() == tail
    ensures ReadBulk(f) == BulkBody(GetLine(f).0, |item|)
  {
    hide StringToNumber, Digits, ReadBulk, BulkBody, GetLine, StripCr;
    LineWhole(f, DOLLAR, Digits(|item|), tail);
    NumberOf(DOLLAR, |item|, INT64_MAX);
    BulkAfterHeader(f, [DOLLAR] + Digits(|item|), |item|);
  }

  lemma ReadCrlf(f: Input, tail: bytes)
    requires f.Valid() && f.Good() && f.Ahead() == CRLF + tail
    ensures GetLine(f).0.Good() && GetLine(f).0.Ahead() == tail
  {
    Advance(f.data, f.pos, CRLF, tail);
    assert f.data[f.pos] == CR && f.data[f.pos + 1] == LF by {
      assert f.Ahead()[0] == CR && f.Ahead()[1] == LF;
    }
    assert LfAt(f.data, f.pos) == Some(f.pos + 1);
  }

  lemma BulkWhole(f: Input, item: bytes, tail: bytes)
    requires f.Valid() && f.Good() && |item| <= INT64_MAX
    requires f.Ahead() == BulkString(item) + tail
    ensures
      var (f1, arg) := ReadBulk(f);
      f1.Good() && f1.Ahead() == tail && arg == Some(item)
  {
    hide StringToNumber, Digits, GetLine, ReadBulk;
    BulkParts(item, tail);
    ReadBulkHeader(f, item, item + (CRLF + tail));
    var f1 := GetLine(f).0;
    Advance(f1.data, f1.pos, item, CRLF + tail);
    ReadCrlf(Read(f1, |item|).0, tail);
  }

  /** A bulk string that misses at most its CR LF is read, and ends the stream. */
  lemma BulkNearlyWhole(f: Input, item: bytes, m: nat)
    requires f.Valid() && f.Good() && |item| <= INT64_MAX
    requires |BulkString(item)| - 2 <= m < |BulkString(item)|
    requires f.Ahead() == BulkString(item)[..m]
    ensures !ReadBulk(f).0.Good() && ReadBulk(f).1 == Some(item)
  {
    hide StringToNumber, Digits, ReadBulk, GetLine;
    BulkParts(item, []);
    assert BulkString(item) + [] == BulkString(item) && CRLF + [] == CRLF;
    var left := CRLF[..m - (|BulkString(item)| - 2)];
    assert BulkString(item)[..m] == [DOLLAR] + Digits(|item|) + CRLF + (item + left);
    ReadBulkHeader(f, item, item + left);
    var f1 := GetLine(f).0;
    Advance(f1.data, f1.pos, item, left);
    ReadPartCrlf(Read(f1, |item|).0, left);
  }

  lemma ReadPartCrlf(f: Input, left: bytes)
    requires f.Valid() && f.Good() && f.Ahead() == left && (left == [] || left == [CR])
    ensures !GetLine(f).0.Good()
  {
    assert forall k :: f.pos <= k < |f.data| ==> f.data[k] == f.Ahead()[k - f.pos];
    assert LfAt(f.data, f.pos).None?;
  }

  /** A bulk string cut any earlier is not read at all. */
  lemma BulkCut(f: Input, item: bytes, m: nat)
    requires f.Valid() && f.Good() && |item| <= INT64_MAX
    requires m < |BulkString(item)| - 2
    requires f.Ahead() == BulkString(item)[..m]
    ensures ReadBulk(f).1 == None
  {
    hide StringToNumber, Digits, GetLine, LfAt;
    BulkParts(item, []);
    assert BulkString(item) + [] == BulkString(item);
    var head := [DOLLAR] + Digits(|item|) + CRLF;
    if m < |head| {
      assert BulkString(item)[..m] == head[..m];
      LineCut(f, DOLLAR, Digits(|item|), m);
      var line := GetLine(f).1;
      if line.Some? {
        DigitsAreNotNegative(StripCr(line.value)[1..], INT64_MIN, INT64_MAX);
      }
    } else {
      var part := item[..m - |head|];
      assert BulkString(item)[..m] == head + part;
      ReadBulkHeader(f, item, part);
    }
  }

  // ---- the arguments of one record ----

  lemma {:induction false} ArgsWhole(f: Input, items: Command, args: Command, tail: bytes)
    requires f.Valid() && f.Good() && Sizes(items)
    requires f.Ahead() == Bulks(items) + tail
    ensures
      var (f1, r) := ReadArgs(f, |items|, args);
      f1.Good() && f1.Ahead() == tail && r == Some(args + items)
    decreases |items|
  {
    hide ReadBulk, BulkString;
    if items == [] {
      assert args + items == args;
    } else {
      var item, others := items[0], items[1..];
      BulksShape(items, tail);
      BulkWhole(f, item, Bulks(others) + tail);
      var f1 := ReadBulk(f).0;
      ArgsWhole(f1, others, args + [item], tail);
      assert args + [item] + others == args + items && |items| == |others| + 1;
    }
  }

  lemma ArgsOnDeadStream(f: Input, n: nat, args: Command)
    requires f.Valid() && !f.Good() && n > 0
    ensures ReadArgs(f, n, args).1 == None
  {
    assert ReadBulk(f).1 == None;
  }

  lemma BulkIsLong(item: bytes)
    ensures |BulkString(item)| > 2
  {
  }

  lemma BulksAreLong(items: Command)
    requires items != []
    ensures |Bulks(items)| > 2
  {
    BulksShape(items, []);
    BulkIsLong(items[0]);
  }

  /** Arguments cut before their end are read only if nothing but the final CR LF is touched. */
  lemma {:induction false} ArgsCut(f: Input, items: Command, args: Command, m: nat)
    requires f.Valid() && f.Good() && Sizes(items) && items != []
    requires m < |Bulks(items)| && f.Ahead() == Bulks(items)[..m]
    ensures
      var (f1, r) := ReadArgs(f, |items|, args);
      if |Bulks(items)| - 2 <= m then !f1.Good() && r == Some(args + items) else r == None
    decreases |items|
  {
    hide ReadBulk, BulkString, Collect;
    var item, others := items[0], items[1..];
    var head := BulkString(item);
    BulksShape(items, []);
    assert Bulks(items) == head + Bulks(others) by {
      assert Bulks(items) + [] == Bulks(items) && Bulks(others) + [] == Bulks(others);
    }
    if others != [] {
      BulksAreLong(others);
    } else {
      CollectNothing<bytes, byte>([], BulkString);
      assert items == [item] && args + [item] == args + items;
    }
    if m >= |head| {
      var k := m - |head|;
      assert Bulks(items)[..m] == head + Bulks(others)[..k];
      BulkWhole(f, item, Bulks(others)[..k]);
      var f1 := ReadBulk(f).0;
      ArgsCut(f1, others, args + [item], k);
      assert args + [item] + others == args + items && |items| == |others| + 1;
    } else {
      assert Bulks(items)[..m] == head[..m];
      if |head| - 2 <= m {
        BulkNearlyWhole(f, item, m);
        if others != [] {
          ArgsOnDeadStream(ReadBulk(f).0, |others|, args + [item]);
        }
      } else {
        BulkCut(f, item, m);
      }
    }
  }

  // ---- one record ----

  predicate Countable(items: Command) {
    Sizes(items) && 0 < |items| <= INT32_MAX
  }

  lemma ArrayParts(items: Command, tail: bytes)
    ensures Array(items) + tail == [STAR] + Digits(|items|) + CRLF + (Bulks(items) + tail)
    ensures |Array(items)| == |[STAR] + Digits(|items|) + CRLF| + |Bulks(items)|
  {
  }

  /** A replay turn after its header line: `n` arguments, then their interpretation. */
  function TurnBody(f: Input, n: nat): Aof.Turn
    requires f.Valid()
  {
    var r := ReadArgs(f, n, []);
    if r.1.None? || r.1.value == [] then End else Next(r.0, Interpret(r.1.value))
  }

  lemma TurnAfterHeader(f: Input, hdr: bytes, n: nat)
    requires f.Valid() && f.Good() && GetLine(f).1.Some? && StripCr(GetLine(f).1.value) == hdr
    requires hdr != [] && hdr[0] == STAR && StringToNumber(hdr[1..], INT32_MIN, INT32_MAX) == Some(n)
    ensures ReplayTurn(f) == TurnBody(GetLine(f).0, n)
  {
    hide StringToNumber, ReadArgs, GetLine, StripCr, Interpret;
  }

  lemma TurnHeader(f: Input, items: Command, tail: bytes)
    requires f.Valid() && f.Good() && Countable(items)
    requires f.Ahead() == [STAR] + Digits(|items|) + CRLF + tail
    ensures GetLine(f).0.Good() && GetLine(f).0.Ahead() == tail
    ensures ReplayTurn(f) == TurnBody(GetLine(f).0, |items|)
  {
    hide StringToNumber, Digits, TurnBody, ReplayTurn, GetLine, StripCr, Sizes;
    LineWhole(f, STAR, Digits(|items|), tail);
    NumberOf(STAR, |items|, INT32_MAX);
    TurnAfterHeader(f, [STAR] + Digits(|items|), |items|);
  }

  lemma TurnWhole(f: Input, items: Command, tail: bytes)
    requires f.Valid() && f.Good() && Countable(items)
    requires f.Ahead() == Array(items) + tail
    ensures
      var turn := ReplayTurn(f);
      turn.Next? && turn.f.Good() && turn.f.Ahead() == tail && turn.calls == Interpret(items)
  {
    hide ReplayTurn, ReadArgs, Interpret, GetLine, Array, Bulks;
    ArrayParts(items, tail);
    TurnHeader(f, items, Bulks(items) + tail);
    ArgsWhole(GetLine(f).0, items, [], tail);
    assert [] + items == items;
  }

  /** A record cut before its end takes effect only if nothing but its final CR LF is touched. */
  lemma TurnCut(f: Input, items: Command, m: nat)
    requires f.Valid() && f.Good() && Countable(items)
    requires m < |Array(items)| && f.Ahead() == Array(items)[..m]
    ensures
      var turn := ReplayTurn(f);
      if |Array(items)| - 2 <= m then turn.Next? && !turn.f.Good() && turn.calls == Interpret(items)
      else turn == End
  {
    hide ReadArgs, Interpret, GetLine, Bulks, ReplayTurn, Digits, Sizes;
    ArrayParts(items, []);
    assert Array(items) + [] == Array(items) && Bulks(items) + [] == Bulks(items);
    BulksAreLong(items);
    var head := [STAR] + Digits(|items|) + CRLF;
    if m < |head| {
      assert Array(items)[..m] == head[..m];
      LineCut(f, STAR, Digits(|items|), m);
      CutHeaderEnds(f);
    } else {
      var k := m - |head|;
      assert Array(items)[..m] == head + Bulks(items)[..k];
      TurnHeader(f, items, Bulks(items)[..k]);
      assert [] + items == items;
      if k < |Bulks(items)| {
        ArgsCut(GetLine(f).0, items, [], k);
      }
    }
  }

  lemma CutHeaderEnds(f: Input)
    requires f.Valid()
    requires
      var (f1, line) := GetLine(f);
      && !f1.Good()
      && (line.Some? ==>
            var hdr := StripCr(line.value);
            hdr != [] && hdr[0] == STAR && AllDigits(hdr[1..]))
    ensures ReplayTurn(f) == End
  {
    hide StringToNumber, LfAt;
    var (f1, line) := GetLine(f);
    if line.Some? {
      var text := StripCr(line.value)[1..];
      DigitsAreNotNegative(text, INT32_MIN, INT32_MAX);
      var n := StringToNumber(text, INT32_MIN, INT32_MAX);
      if n.Some? && n.value > 0 {
        ArgsOnDeadStream(f1, n.value, []);
      }
    }
  }

  // ---- the whole file ----

  /** How many records survive in the first `cut` bytes: whole ones, and one that lacks at most its CR LF. */
  function Survivors(rs: seq<Record>, cut: nat): (k: nat)
    ensures k <= |rs|
  {
    if rs == [] then 0
    else if |Encode(rs[0])| <= cut then 1 + Survivors(rs[1..], cut - |Encode(rs[0])|)
    else if |Encode(rs[0])| - 2 <= cut then 1
    else 0
  }

  lemma LogHead(rs: seq<Record>)
    requires rs != []
    ensures Log(rs) == Encode(rs[0]) + Log(rs[1..])
  {
    hide Encode;
  }

  lemma EncodeIsLong(r: Record)
    ensures |Encode(r)| > 2
  {
  }

  /** So `Survivors` counts the longest prefix of the log that fits, its last CR LF excepted. */
  lemma {:induction false} SurvivorsIsLongest(rs: seq<Record>, cut: nat, k: nat)
    requires 0 < k <= |rs|
    ensures k <= Survivors(rs, cut) <==> |Log(rs[..k])| - 2 <= cut
    decreases |rs|
  {
    hide Encode;
    var r, others := rs[0], rs[1..];
    assert rs[..k][0] == r && rs[..k][1..] == others[..k - 1];
    LogHead(rs[..k]);
    EncodeIsLong(r);
    if k == 1 {
      assert others[..0] == [];
      CollectNothing<Record, byte>([], Encode);
    } else {
      LogIsLong(others[..k - 1]);
      if |Encode(r)| <= cut {
        SurvivorsIsLongest(others, cut - |Encode(r)|, k - 1);
      }
    }
  }

  lemma LogIsLong(rs: seq<Record>)
    requires rs != []
    ensures |Log(rs)| > 2
  {
    hide Encode;
    LogHead(rs);
    EncodeIsLong(rs[0]);
  }

  lemma RecordIsCountable(r: Record)
    requires Fits(r)
    ensures Countable(Args(r))
  {
  }

  lemma {:induction false} ReplayOfCutFrom(f: Input, rs: seq<Record>, cut: nat)
    requires forall i :: 0 <= i < |rs| ==> Fits(rs[i])
    requires f.Valid() && f.Good() && cut <= |Log(rs)| && f.Ahead() == Log(rs)[..cut]
    ensures ReplayFrom(f).0 == Collect(rs[..Survivors(rs, cut)], Kept) && ReplayFrom(f).1
    decreases |rs|
  {
    hide ReplayTurn, Encode, Fits, Collect, Kept;
    if rs == [] {
      CollectNothing<Record, byte>([], Encode);
      CollectNothing<Record, Record>([], Kept);
      EndOfFile(f);
    } else {
      var r, others := rs[0], rs[1..];
      assert Fits(r);
      RecordIsCountable(r);
      EncodeIsArray(r);
      InterpretOfArgs(r);
      LogHead(rs);
      var k := Survivors(rs, cut);
      if |Encode(r)| <= cut {
        var rest := cut - |Encode(r)|;
        assert Log(rs)[..cut] == Encode(r) + Log(others)[..rest];
        TurnWhole(f, Args(r), Log(others)[..rest]);
        ReplayOfCutFrom(ReplayTurn(f).f, others, rest);
        assert rs[..k] == [r] + others[..k - 1];
        CollectAppend([r], others[..k - 1], Kept);
        CollectOne(r, Kept);
      } else {
        assert Log(rs)[..cut] == Encode(r)[..cut];
        TurnCut(f, Args(r), cut);
        if k == 1 {
          EndOfFile(ReplayTurn(f).f);
          assert rs[..1] == [r];
          CollectOne(r, Kept);
          assert Kept(r) + [] == Kept(r);
        } else {
          assert rs[..0] == [];
          CollectNothing<Record, Record>([], Kept);
        }
      }
    }
  }

  lemma EndOfFile(f: Input)
    requires f.Valid() && (!f.Good() || f.Ahead() == [])
    ensures ReplayFrom(f) == ([], true)
  {
    assert ReplayTurn(f) == End;
  }

  /**
   * For every log of written records, of arbitrary keys and values, and every byte at which the file
   * is cut, replay ends normally and makes exactly the calls of the surviving records, in order; a
   * torn record is never applied in part.
   */
  lemma ReplayOfCut(rs: seq<Record>, cut: nat)
    requires forall i :: 0 <= i < |rs| ==> Fits(rs[i])
    requires cut <= |Log(rs)|
    ensures ReplayFrom(Start(Log(rs)[..cut])).0 == Collect(rs[..Survivors(rs, cut)], Kept)
    ensures ReplayFrom(Start(Log(rs)[..cut])).1
  {
    hide ReplayFrom, Collect, Survivors, Fits;
    var f := Start(Log(rs)[..cut]);
    assert f.Ahead() == Log(rs)[..cut];
    ReplayOfCutFrom(f, rs, cut);
  }

  /** Replaying the uncut file gives back the log. */
  lemma ReplayOfLog(rs: seq<Record>)
    requires forall i :: 0 <= i < |rs| ==> Fits(rs[i])
    ensures ReplayFrom(Start(Log(rs))).0 == Collect(rs, Kept)
    ensures ReplayFrom(Start(Log(rs))).1
  {
    hide ReplayFrom, Collect, Fits, Survivors, Log;
    ReplayOfCut(rs, |Log(rs)|);
    assert Log(rs)[..|Log(rs)|] == Log(rs) && rs[..|rs|] == rs;
    if rs != [] {
      SurvivorsIsLongest(rs, |Log(rs)|, |rs|);
    }
  }
}
