/** Laws of multibulk requests: verdicts are final, and the parser inverts the encoder. */
module RespLaws {
  import opened ByteStrings
  import opened RespParser
  import opened Sequences

  // ---- verdicts do not change when more bytes arrive ----

  lemma FirstCrlf(v: bytes, from: nat, i: nat)
    requires from <= i && IsCrlf(v, i)
    requires forall k :: from <= k < i ==> !IsCrlf(v, k)
    ensures CrlfAt(v, from) == Some(i)
  {
  }

  lemma CrlfIsStable(v: bytes, from: nat, more: bytes)
    requires CrlfAt(v, from).Some?
    ensures CrlfAt(v + more, from) == CrlfAt(v, from)
  {
    var i := CrlfAt(v, from).value;
    forall k | from <= k < i
      ensures !IsCrlf(v + more, k)
    {
      assert !IsCrlf(v, k);
    }
    FirstCrlf(v + more, from, i);
  }

  lemma IntegerIsStable(v: bytes, from: nat, more: bytes)
    requires IntegerAt(v, from).Some?
    ensures IntegerAt(v + more, from) == IntegerAt(v, from)
  {
    CrlfIsStable(v, from, more);
    var i := CrlfAt(v, from).value;
    assert (v + more)[from..i] == v[from..i];
  }

  lemma ArgIsStable(data: bytes, pos: nat, more: bytes)
    requires ArgAt(data, pos) != Stop(Incomplete)
    ensures ArgAt(data + more, pos) == ArgAt(data, pos)
  {
    if data[pos] == DOLLAR {
      IntegerIsStable(data, pos + 1, more);
      var (len, start) := IntegerAt(data, pos + 1).value;
      if 0 <= len {
        assert (data + more)[start..start + len] == data[start..start + len];
      }
    }
  }

  lemma {:induction false} ArgsAreStable(data: bytes, pos: nat, n: nat, args: Command, more: bytes)
    requires !ParseArgs(data, pos, n, args).Incomplete?
    ensures ParseArgs(data + more, pos, n, args) == ParseArgs(data, pos, n, args)
    decreases n
  {
    hide ArgAt;
    if n > 0 {
      ArgIsStable(data, pos, more);
      var turn := ArgAt(data, pos);
      if turn.Arg? {
        ArgsAreStable(data, turn.next, n - 1, args + [turn.arg], more);
      }
    }
  }

  /** A COMPLETE or ERROR verdict on a '*' frame stands whatever bytes follow. */
  lemma MultibulkIsStable(data: bytes, more: bytes)
    requires data != [] && data[0] == STAR
    requires !Parse(data).Incomplete?
    ensures Parse(data + more) == Parse(data)
  {
    IntegerIsStable(data, 1, more);
    var (nargs, pos) := IntegerAt(data, 1).value;
    if 0 <= nargs {
      ArgsAreStable(data, pos, nargs, [], more);
    }
  }

  lemma LfBeforeIsStable(v: bytes, i: nat, more: bytes)
    requires LfAt(v, 0) == Some(i)
    ensures LfAt(v + more, 0) == Some(i)
  {
    assert forall k :: 0 <= k < i ==> (v + more)[k] == v[k];
    assert (v + more)[i] == LF;
  }

  /**
   * Exactly which COMPLETE verdicts are final: '*' frames, and inline lines ended by CR LF. A line
   * taken because of a bare LF is read differently once CR LF follows.
   */
  lemma CompleteIsFinal(data: bytes)
    requires Parse(data).Complete?
    ensures (forall more: bytes :: Parse(data + more) == Parse(data))
            <==> data[0] == STAR || CrlfAt(data, 0).Some?
  {
    if data[0] == STAR {
      forall more: bytes
        ensures Parse(data + more) == Parse(data)
      {
        MultibulkIsStable(data, more);
      }
    } else if CrlfAt(data, 0).Some? {
      forall more: bytes
        ensures Parse(data + more) == Parse(data)
      {
        LineIsStable(data, more);
      }
    } else {
      CrlfOvertakesLf(data);
    }
  }

  lemma LineIsStable(data: bytes, more: bytes)
    requires data != [] && data[0] != STAR && CrlfAt(data, 0).Some?
    ensures Parse(data + more) == Parse(data)
  {
    CrlfIsStable(data, 0, more);
    var i := CrlfAt(data, 0).value;
    assert (data + more)[..i] == data[..i];
  }

  lemma CrlfOvertakesLf(data: bytes)
    requires data != [] && data[0] != STAR && CrlfAt(data, 0).None? && LfAt(data, 0).Some?
    ensures Parse(data + CRLF) != Parse(data)
  {
    var v := data + CRLF;
    assert IsCrlf(v, |data|);
    var i := CrlfAt(v, 0).value;
    assert !IsCrlf(data, LfAt(data, 0).value);
    if i + 1 < |data| {
      assert IsCrlf(data, i);
    }
    assert Parse(v).consumed == i + 2;
    assert Parse(data).consumed == LfAt(data, 0).value + 1;
  }

  // ---- encoding and the round trip ----

  function BulkString(s: bytes): bytes {
    [DOLLAR] + Decimal(|s|) + CRLF + s + CRLF
  }

  function Bulks(items: Command): bytes {
    Collect(items, BulkString)
  }

  function Array(items: Command): bytes {
    [STAR] + Decimal(|items|) + CRLF + Bulks(items)
  }

  /** `array`: the header, then one bulk string after the other appended to the result. */
  method EncodeArray(items: Command) returns (r: bytes)
    ensures r == Array(items)
  {
    r := [STAR] + Decimal(|items|) + CRLF;
    for i := 0 to |items|
      invariant r == [STAR] + Decimal(|items|) + CRLF + Bulks(items[..i])
    {
      CollectPush(items[..i], items[i], BulkString);
      assert items[..i + 1] == items[..i] + [items[i]];
      r := r + BulkString(items[i]);
    }
    assert items[..|items|] == items;
  }

  /** Sizes that fit the `int64_t` the parser reads lengths into; every C++ container is within them. */
  predicate Sizes(items: Command) {
    |items| <= INT64_MAX && forall i :: 0 <= i < |items| ==> |items[i]| <= INT64_MAX
  }

  lemma Advance(data: bytes, pos: nat, head: bytes, tail: bytes)
    requires pos <= |data| && data[pos..] == head + tail
    ensures pos + |head| <= |data| && data[pos + |head|..] == tail
    ensures data[pos..pos + |head|] == head
  {
    assert data[pos + |head|..] == data[pos..][|head|..];
    assert data[pos..pos + |head|] == data[pos..][..|head|];
  }

  lemma IntegerOfDecimal(v: bytes, from: nat, n: int, tail: bytes)
    requires INT64_MIN <= n <= INT64_MAX
    requires from <= |v| && v[from..] == Decimal(n) + CRLF + tail
    ensures IntegerAt(v, from) == Some((n, from + |Decimal(n)| + 2))
  {
    hide Decimal, ParseDecimal, CrlfAt;
    var d := Decimal(n);
    var i := from + |d|;
    assert v[from..][|d|] == CR && v[from..][|d| + 1] == LF;
    DecimalIsOneLine(n);
    forall k | from <= k < i
      ensures !IsCrlf(v, k)
    {
      assert v[k] == v[from..][k - from] == d[k - from];
    }
    FirstCrlf(v, from, i);
    assert v[from..i] == d;
    ParseOfDecimal(n);
  }

  lemma BulkShape(item: bytes, tail: bytes)
    ensures BulkString(item) + tail == [DOLLAR] + (Decimal(|item|) + CRLF + (item + (CRLF + tail)))
    ensures |BulkString(item)| == 1 + |Decimal(|item|) + CRLF| + |item| + 2
  {
  }

  lemma ArgOfBulk(data: bytes, pos: nat, item: bytes, tail: bytes)
    requires |item| <= INT64_MAX
    requires pos <= |data| && data[pos..] == BulkString(item) + tail
    ensures ArgAt(data, pos) == Arg(item, pos + |BulkString(item)|)
  {
    hide CrlfAt, ParseDecimal, Decimal;
    var line := Decimal(|item|) + CRLF;
    assert data[pos] == data[pos..][0] == DOLLAR;
    BulkShape(item, tail);
    Advance(data, pos, [DOLLAR], line + (item + (CRLF + tail)));
    IntegerOfDecimal(data, pos + 1, |item|, item + (CRLF + tail));
    Advance(data, pos + 1, line, item + (CRLF + tail));
    Advance(data, pos + 1 + |line|, item, CRLF + tail);
  }

  lemma BulksShape(items: Command, tail: bytes)
    requires items != []
    ensures Bulks(items) + tail == BulkString(items[0]) + (Bulks(items[1..]) + tail)
    ensures |Bulks(items)| == |BulkString(items[0])| + |Bulks(items[1..])|
  {
  }

  lemma ArgsStep(data: bytes, pos: nat, n: nat, args: Command, arg: bytes, next: nat)
    requires ArgAt(data, pos) == Arg(arg, next)
    ensures ParseArgs(data, pos, n + 1, args) == ParseArgs(data, next, n, args + [arg])
  {
  }

  lemma {:induction false} ArgsOfBulks(data: bytes, pos: nat, items: Command, args: Command, tail: bytes)
    requires Sizes(items)
    requires pos <= |data| && data[pos..] == Bulks(items) + tail
    ensures ParseArgs(data, pos, |items|, args) == Complete([args + items], pos + |Bulks(items)|)
    decreases |items|
  {
    hide ArgAt, BulkString;
    if items == [] {
      assert args + items == args;
    } else {
      var item, others := items[0], items[1..];
      var head, rest := BulkString(item), Bulks(others) + tail;
      BulksShape(items, tail);
      ArgOfBulk(data, pos, item, rest);
      Advance(data, pos, head, rest);
      ArgsStep(data, pos, |others|, args, item, pos + |head|);
      ArgsOfBulks(data, pos + |head|, others, args + [item], tail);
      assert args + [item] + others == args + items && |items| == |others| + 1;
    }
  }

  /** Parsing an encoded command gives the command back and consumes exactly its bytes, whatever follows. */
  lemma RoundTrip(items: Command, tail: bytes)
    requires Sizes(items)
    ensures Parse(Array(items) + tail) == Complete([items], |Array(items)|)
  {
    var data := Array(items) + tail;
    var line, rest := Decimal(|items|) + CRLF, Bulks(items) + tail;
    assert data[1..] == line + rest;
    IntegerOfDecimal(data, 1, |items|, rest);
    Advance(data, 1, line, rest);
    ArgsOfBulks(data, 1 + |line|, items, [], tail);
    assert [] + items == items;
  }

  /** Every strict prefix of an encoded command is INCOMPLETE: no early verdict, no early error. */
  lemma StrictPrefixIsIncomplete(items: Command, cut: nat)
    requires Sizes(items) && cut < |Array(items)|
    ensures Parse(Array(items)[..cut]) == Incomplete
  {
    var frame := Array(items);
    var prefix := frame[..cut];
    assert prefix + frame[cut..] == frame && frame + [] == frame;
    RoundTrip(items, []);
    if cut > 0 && !Parse(prefix).Incomplete? {
      MultibulkIsStable(prefix, frame[cut..]);
    }
  }

  /** Two commands with the same encoding, even with different bytes behind it, are the same command. */
  lemma ArrayIsSelfDelimiting(a: Command, ta: bytes, b: Command, tb: bytes)
    requires Sizes(a) && Sizes(b)
    requires Array(a) + ta == Array(b) + tb
    ensures a == b && ta == tb
  {
    RoundTrip(a, ta);
    RoundTrip(b, tb);
    assert ta == (Array(a) + ta)[|Array(a)|..];
    assert tb == (Array(b) + tb)[|Array(b)|..];
  }

  // ---- frames no encoder writes ----

  /** A bulk string whose two bytes behind the data are anything. */
  datatype Loose = Loose(item: bytes, x: byte, y: byte)

  function LooseBulk(b: Loose): bytes { [DOLLAR] + Decimal(|b.item|) + CRLF + b.item + [b.x, b.y] }

  function ItemOf(b: Loose): Command { [b.item] }

  lemma ArgOfLoose(data: bytes, pos: nat, b: Loose, tail: bytes)
    requires |b.item| <= INT64_MAX && pos <= |data| && data[pos..] == LooseBulk(b) + tail
    ensures ArgAt(data, pos) == Arg(b.item, pos + |LooseBulk(b)|)
  {
    hide CrlfAt, ParseDecimal, Decimal;
    var line, rest := Decimal(|b.item|) + CRLF, b.item + ([b.x, b.y] + tail);
    assert data[pos] == data[pos..][0] == DOLLAR;
    assert LooseBulk(b) + tail == [DOLLAR] + (line + rest);
    Advance(data, pos, [DOLLAR], line + rest);
    IntegerOfDecimal(data, pos + 1, |b.item|, rest);
    Advance(data, pos + 1, line, rest);
    Advance(data, pos + 1 + |line|, b.item, [b.x, b.y] + tail);
  }

  /** The argument loop over some whole arguments, with more to go. */
  lemma {:induction false} ArgsOfLoose(data: bytes, pos: nat, bs: seq<Loose>, n: nat, args: Command, tail: bytes)
    requires |bs| <= n && forall i :: 0 <= i < |bs| ==> |bs[i].item| <= INT64_MAX
    requires pos <= |data| && data[pos..] == Collect(bs, LooseBulk) + tail
    ensures
      var end := pos + |Collect(bs, LooseBulk)|;
      && end <= |data| && data[end..] == tail
      && ParseArgs(data, pos, n, args) == ParseArgs(data, end, n - |bs|, args + Collect(bs, ItemOf))
    decreases |bs|
  {
    hide ArgAt, LooseBulk, ParseArgs;
    if bs == [] {
      assert args + [] == args;
    } else {
      var b, others := bs[0], bs[1..];
      var head, rest := LooseBulk(b), Collect(others, LooseBulk) + tail;
      assert data[pos..] == head + rest;
      ArgOfLoose(data, pos, b, rest);
      Advance(data, pos, head, rest);
      ArgsStep(data, pos, n - 1, args, b.item, pos + |head|);
      ArgsOfLoose(data, pos + |head|, others, n - 1, args + [b.item], tail);
      assert args + [b.item] + Collect(others, ItemOf) == args + Collect(bs, ItemOf);
    }
  }

  /** The bytes of a frame that announces `n` arguments and goes on with `body`. */
  function Counted(n: int, body: bytes): bytes { [STAR] + Decimal(n) + CRLF + body }

  lemma CountedReads(n: int, body: bytes)
    requires INT64_MIN <= n <= INT64_MAX
    ensures
      var data, pos := Counted(n, body), 1 + |Decimal(n)| + 2;
      && pos <= |data| && data[pos..] == body
      && Parse(data) == if n < 0 then Error else ParseArgs(data, pos, n, [])
  {
    hide CrlfAt, ParseDecimal, Decimal, ParseArgs;
    var data := Counted(n, body);
    assert data[1..] == Decimal(n) + CRLF + body;
    IntegerOfDecimal(data, 1, n, body);
  }

  /** The two bytes behind an argument are not looked at: whatever they are, the frame is complete. */
  lemma TrailersAreNotRead(bs: seq<Loose>, tail: bytes)
    requires |bs| <= INT64_MAX && forall i :: 0 <= i < |bs| ==> |bs[i].item| <= INT64_MAX
    ensures
      var frame := Counted(|bs|, Collect(bs, LooseBulk));
      Parse(frame + tail) == Complete([Collect(bs, ItemOf)], |frame|)
  {
    hide Collect, ParseArgs, Parse, Decimal;
    var frame, body := Counted(|bs|, Collect(bs, LooseBulk)), Collect(bs, LooseBulk) + tail;
    assert frame + tail == Counted(|bs|, body);
    CountedReads(|bs|, body);
    ArgsOfLoose(frame + tail, 1 + |Decimal(|bs|)| + 2, bs, |bs|, [], tail);
    assert [] + Collect(bs, ItemOf) == Collect(bs, ItemOf);
    NoMoreArgs(frame + tail, |frame|, Collect(bs, ItemOf));
  }

  lemma NoMoreArgs(data: bytes, pos: nat, args: Command)
    ensures ParseArgs(data, pos, 0, args) == Complete([args], pos)
  {
  }

  /**
   * A frame that goes wrong after some whole arguments, with at least one more to come: nothing there is
   * INCOMPLETE; a byte that is no '$', or a negative length, is ERROR; so is a negative count at the start.
   */
  lemma BrokenFrames(bs: seq<Loose>, n: int, len: int, junk: bytes, tail: bytes)
    requires |bs| < n <= INT64_MAX && forall i :: 0 <= i < |bs| ==> |bs[i].item| <= INT64_MAX
    requires INT64_MIN <= len < 0 && (junk != [] ==> junk[0] != DOLLAR)
    ensures Parse(Counted(n, Collect(bs, LooseBulk) + junk)) == if junk == [] then Incomplete else Error
    ensures Parse(Counted(n, Collect(bs, LooseBulk) + ([DOLLAR] + Decimal(len) + CRLF + tail))) == Error
    ensures Parse(Counted(len, tail)) == Error
  {
    hide Collect, ParseArgs, Parse, Decimal, Counted;
    BrokenArgument(bs, n, junk);
    var bad := [DOLLAR] + Decimal(len) + CRLF + tail;
    BrokenArgument(bs, n, bad);
    assert bad[1..] == Decimal(len) + CRLF + tail;
    IntegerOfDecimal(bad, 1, len, tail);
    CountedReads(len, tail);
  }

  lemma BrokenArgument(bs: seq<Loose>, n: int, bad: bytes)
    requires |bs| < n <= INT64_MAX && forall i :: 0 <= i < |bs| ==> |bs[i].item| <= INT64_MAX
    ensures
      var r := Parse(Counted(n, Collect(bs, LooseBulk) + bad));
      && (bad == [] ==> r == Incomplete) && (bad != [] && bad[0] != DOLLAR ==> r == Error)
      && (bad != [] && bad[0] == DOLLAR && IntegerAt(bad, 1).Some? && IntegerAt(bad, 1).value.0 < 0 ==> r == Error)
  {
    hide Collect, ParseArgs, Parse, Decimal, Counted, CrlfAt, ParseDecimal;
    var body := Collect(bs, LooseBulk) + bad;
    var data, pos := Counted(n, body), 1 + |Decimal(n)| + 2;
    CountedReads(n, body);
    ArgsOfLoose(data, pos, bs, n, [], bad);
    var end := pos + |Collect(bs, LooseBulk)|;
    BadArg(data, end, n - |bs|, [] + Collect(bs, ItemOf), bad);
  }

  lemma SliceOfSlice(data: bytes, pos: nat, a: nat, b: nat)
    requires a <= b && pos + b <= |data|
    ensures data[pos..][a..b] == data[pos + a..pos + b]
  {
  }

  lemma BadArg(data: bytes, pos: nat, n: nat, args: Command, bad: bytes)
    requires 0 < n && pos <= |data| && data[pos..] == bad
    ensures
      var r := ParseArgs(data, pos, n, args);
      && (bad == [] ==> r == Incomplete) && (bad != [] && bad[0] != DOLLAR ==> r == Error)
      && (bad != [] && bad[0] == DOLLAR && IntegerAt(bad, 1).Some? && IntegerAt(bad, 1).value.0 < 0 ==> r == Error)
  {
    hide ParseDecimal;
    if bad != [] {
      assert data[pos] == bad[0];
      if IntegerAt(bad, 1).Some? {
        var i := CrlfAt(bad, 1).value;
        forall k | pos + 1 <= k < pos + i
          ensures !IsCrlf(data, k)
        {
          assert !IsCrlf(bad, k - pos);
        }
        assert IsCrlf(data, pos + i);
        FirstCrlf(data, pos + 1, pos + i);
        SliceOfSlice(data, pos, 1, i);
      }
    }
  }

  /** A length or count that is no number is INCOMPLETE for ever. */
  lemma MalformedCountWaits(text: bytes, tail: bytes)
    requires CR !in text && ParseDecimal(text).None?
    ensures Parse([STAR] + text + CRLF + tail) == Incomplete
  {
    hide ParseDecimal;
    var data := [STAR] + text + CRLF + tail;
    assert IsCrlf(data, 1 + |text|);
    forall k | 1 <= k < 1 + |text|
      ensures !IsCrlf(data, k)
    {
      assert data[k] == text[k - 1];
    }
    FirstCrlf(data, 1, 1 + |text|);
    assert data[1..1 + |text|] == text;
  }
}
