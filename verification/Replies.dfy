/** Replies on the wire: one RESP value each, decoded one by one from the concatenated stream. */
module Replies {
  import opened ByteStrings
  import opened RespParser
  import opened RespLaws
  import opened Sequences

  datatype Reply =
    | Simple(text: bytes)    // simple_string
    | Failure(text: bytes)   // error; the text starts with "ERR "
    | Integer(n: int)
    | Bulk(data: bytes)
    | Nil                    // nil_bulk
    | EmptyArray

  const PLUS: byte := 43
  const COLON: byte := 58

  function Render(r: Reply): bytes {
    match r
    case Simple(text) => [PLUS] + text + CRLF
    case Failure(text) => [MINUS] + text + CRLF
    case Integer(n) => [COLON] + Decimal(n) + CRLF
    case Bulk(data) => BulkString(data)
    case Nil => [DOLLAR, MINUS, 49, CR, LF]
    case EmptyArray => [STAR, 48, CR, LF]
  }

  /** A client reading one value from the front of the stream: the value and its length. */
  function Decode(s: bytes): Option<(Reply, nat)> {
    if s == [] then None
    else if s[0] == PLUS || s[0] == MINUS then
      match CrlfAt(s, 1)
      case None => None
      case Some(i) => Some((if s[0] == PLUS then Simple(s[1..i]) else Failure(s[1..i]), i + 2))
    else
      match IntegerAt(s, 1)
      case None => None
      case Some((n, next)) =>
        if s[0] == COLON then Some((Integer(n), next))
        else if s[0] == DOLLAR then
          if n == -1 then Some((Nil, next))
          else if n < 0 || next + n + 2 > |s| then None
          else Some((Bulk(s[next..next + n]), next + n + 2))
        else if s[0] == STAR && n == 0 then Some((EmptyArray, next))
        else None
  }

  /** Reads exactly `n` values and demands that nothing is left. */
  function DecodeAll(s: bytes, n: nat): Option<seq<Reply>>
    decreases n
  {
    if n == 0 then (if s == [] then Some([]) else None)
    else
      match Decode(s)
      case None => None
      case Some((r, k)) =>
        if k > |s| then None
        else
          match DecodeAll(s[k..], n - 1)
          case None => None
          case Some(rs) => Some([r] + rs)
  }

  predicate OneLine(text: bytes) { forall i: nat :: i < |text| ==> !IsCrlf(text, i) }

  /** Numbers and lengths within `int64_t`. */
  predicate InRange(r: Reply) {
    match r
    case Integer(n) => INT64_MIN <= n <= INT64_MAX
    case Bulk(data) => |data| <= INT64_MAX
    case _ => true
  }

  predicate Framed(r: Reply) { r.Simple? || r.Failure? ==> OneLine(r.text) }

  lemma TextEnd(mark: byte, text: bytes, tail: bytes)
    ensures
      var s := [mark] + text + CRLF + tail;
      CrlfAt(s, 1).Some? && (CrlfAt(s, 1) == Some(1 + |text|) <==> OneLine(text))
  {
    var s := [mark] + text + CRLF + tail;
    assert IsCrlf(s, 1 + |text|);
    forall i: nat | i < |text|
      ensures IsCrlf(s, 1 + i) <==> IsCrlf(text, i)
    {
      assert s[1 + i] == text[i];
      if i + 1 < |text| {
        assert s[2 + i] == text[i + 1];
      } else {
        assert s[2 + i] == CR;
      }
    }
    if OneLine(text) {
      forall k | 1 <= k < 1 + |text|
        ensures !IsCrlf(s, k)
      {
        assert !IsCrlf(text, k - 1);
      }
      FirstCrlf(s, 1, 1 + |text|);
    } else {
      var i: nat :| i < |text| && IsCrlf(text, i);
      assert IsCrlf(s, 1 + i);
    }
  }

  lemma DecodeText(r: Reply, tail: bytes)
    requires r.Simple? || r.Failure?
    ensures Decode(Render(r) + tail) == Some((r, |Render(r)|)) <==> OneLine(r.text)
  {
    var mark := if r.Simple? then PLUS else MINUS;
    var s := [mark] + r.text + CRLF + tail;
    assert Render(r) + tail == s;
    TextEnd(mark, r.text, tail);
    assert s[1..1 + |r.text|] == r.text;
  }

  lemma DecodeNumber(r: Reply, tail: bytes)
    requires r.Integer? && InRange(r)
    ensures Decode(Render(r) + tail) == Some((r, |Render(r)|))
  {
    hide Decimal, ParseDecimal, CrlfAt;
    var s := Render(r) + tail;
    assert s[1..] == Decimal(r.n) + CRLF + tail;
    IntegerOfDecimal(s, 1, r.n, tail);
  }

  lemma DecodeBulk(r: Reply, tail: bytes)
    requires r.Bulk? && InRange(r)
    ensures Decode(Render(r) + tail) == Some((r, |Render(r)|))
  {
    hide Decimal, ParseDecimal, CrlfAt;
    var s := Render(r) + tail;
    BulkShape(r.data, tail);
    assert s[0..] == s;
    ArgOfBulk(s, 0, r.data, tail);
  }

  lemma DecodeConstant(r: Reply, tail: bytes)
    requires r.Nil? || r.EmptyArray?
    ensures Decode(Render(r) + tail) == Some((r, |Render(r)|))
  {
    hide CrlfAt, ParseDecimal;
    var s := Render(r) + tail;
    var n := if r.Nil? then -1 else 0;
    assert Decimal(-1) == [MINUS, 49] && Decimal(0) == [48];
    assert s[1..] == Decimal(n) + CRLF + tail;
    IntegerOfDecimal(s, 1, n, tail);
  }

  /** A reply is read back, whatever follows it, exactly when its text holds no CR LF. */
  lemma DecodeOfRender(r: Reply, tail: bytes)
    requires InRange(r)
    ensures Decode(Render(r) + tail) == Some((r, |Render(r)|)) <==> Framed(r)
  {
    hide Decode, Render, OneLine;
    match r
    case Simple(text) => DecodeText(r, tail);
    case Failure(text) => DecodeText(r, tail);
    case Integer(n) => DecodeNumber(r, tail);
    case Bulk(data) => DecodeBulk(r, tail);
    case _ => DecodeConstant(r, tail);
  }

  /** What a client reads for a text reply is always one line. */
  lemma DecodedTextIsOneLine(s: bytes)
    requires Decode(s).Some? && (Decode(s).value.0.Simple? || Decode(s).value.0.Failure?)
    ensures OneLine(Decode(s).value.0.text)
  {
    hide ParseDecimal;
    var text, end := Decode(s).value.0.text, CrlfAt(s, 1).value;
    forall i: nat | i < |text|
      ensures !IsCrlf(text, i)
    {
      assert !IsCrlf(s, 1 + i);
    }
  }

  /** The concatenated replies decode into exactly those replies if and only if each of them is framed. */
  lemma {:induction false} RepliesDecodeExactly(rs: seq<Reply>)
    requires forall i :: 0 <= i < |rs| ==> InRange(rs[i])
    ensures DecodeAll(Collect(rs, Render), |rs|) == Some(rs) <==> forall i :: 0 <= i < |rs| ==> Framed(rs[i])
  {
    hide Decode, Render, InRange, OneLine;
    if rs != [] {
      var r, later := rs[0], rs[1..];
      var tail := Collect(later, Render);
      assert InRange(r);
      DecodeOfRender(r, tail);
      RepliesDecodeExactly(later);
      var s := Render(r) + tail;
      assert s == Collect(rs, Render) && s[|Render(r)|..] == tail;
      assert [r] + later == rs;
      if Framed(r) {
        assert (forall i :: 0 <= i < |rs| ==> Framed(rs[i])) <==> forall i :: 0 <= i < |later| ==> Framed(later[i]);
      } else if Decode(s).Some? && Decode(s).value.0 == r {
        DecodedTextIsOneLine(s);
      }
    }
  }
}
