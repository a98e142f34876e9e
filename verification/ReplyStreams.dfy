/**
 * The replies of dispatch on the wire: which commands get one RESP value each, and what a client decodes
 * from the replies to a sequence of commands.
 */
module ReplyStreams {
  import opened ByteStrings
  import opened RespParser
  import opened Sequences
  import opened Replies
  import opened Shards
  import opened Commands

  // ---- texts without line ends ----

  lemma NoCrIsOneLine(text: bytes)
    requires CR !in text
    ensures OneLine(text)
  {
  }

  lemma AsciiHasNoCr(s: string)
    requires forall i :: 0 <= i < |s| ==> ' ' <= s[i] <= '~'
    ensures CR !in Ascii(s)
  {
    forall i | 0 <= i < |s|
      ensures Ascii(s)[i] != CR
    {
      assert 32 <= s[i] as int <= 126;
    }
  }

  lemma ErrorIsFramed(message: bytes)
    requires CR !in message
    ensures Framed(ErrorReply(message))
  {
    AsciiHasNoCr("ERR ");
    NoCrIsOneLine(Ascii("ERR ") + message);
  }

  lemma NameHasNoCr(kind: Kind)
    ensures CR !in Name(kind)
  {
    hide Ascii;
    AsciiHasNoCr("GET");
    AsciiHasNoCr("SET");
    AsciiHasNoCr("DEL");
    AsciiHasNoCr("EXPIRE");
    AsciiHasNoCr("TTL");
    AsciiHasNoCr("PERSIST");
    AsciiHasNoCr("PING");
    AsciiHasNoCr("INFO");
    AsciiHasNoCr("KEYS");
    AsciiHasNoCr("DBSIZE");
    AsciiHasNoCr("COMMAND");
  }

  lemma WrongArityIsFramed(kind: Kind)
    ensures Framed(ErrorReply(WrongArity(kind)))
  {
    hide Ascii, Framed, Name;
    NameHasNoCr(kind);
    AsciiHasNoCr("wrong number of arguments for '");
    AsciiHasNoCr("' command");
    ErrorIsFramed(WrongArity(kind));
  }

  lemma FixedTextsAreFramed()
    ensures OneLine(Ascii("OK")) && OneLine(Ascii("PONG"))
    ensures Framed(ErrorReply(Ascii("invalid expire time in 'set' command")))
    ensures Framed(ErrorReply(Ascii("syntax error")))
    ensures Framed(ErrorReply(Ascii("value is not an integer or out of range")))
  {
    hide Ascii, OneLine;
    AsciiHasNoCr("OK");
    AsciiHasNoCr("PONG");
    NoCrIsOneLine(Ascii("OK"));
    NoCrIsOneLine(Ascii("PONG"));
    AsciiHasNoCr("invalid expire time in 'set' command");
    ErrorIsFramed(Ascii("invalid expire time in 'set' command"));
    AsciiHasNoCr("syntax error");
    ErrorIsFramed(Ascii("syntax error"));
    AsciiHasNoCr("value is not an integer or out of range");
    ErrorIsFramed(Ascii("value is not an integer or out of range"));
  }

  lemma AnswerIsFramed(kind: Kind, args: Command, m: Table, t: Times, info: bytes)
    requires ArityOk(kind, |args|)
    ensures Framed(AnswerOf(kind, args, m, t, info))
  {
    hide Ascii, OneLine, SetOption, SetTtl, ExpireTtl, ErrorReply;
    FixedTextsAreFramed();
  }

  // ---- the echo of an unknown command ----

  predicate Plain(text: bytes) { CR !in text && LF !in text }

  lemma AsciiIsPlain(s: string)
    requires forall i :: 0 <= i < |s| ==> ' ' <= s[i] <= '~'
    ensures Plain(Ascii(s)) && |Ascii(s)| == |s|
  {
    forall i | 0 <= i < |s|
      ensures Ascii(s)[i] >= 32
    {
      assert 32 <= s[i] as int <= 126;
    }
  }

  lemma OneLineJoin(a: bytes, b: bytes)
    requires a != [] && b != [] ==> a[|a| - 1] != CR || b[0] != LF
    ensures OneLine(a + b) <==> OneLine(a) && OneLine(b)
  {
    var s := a + b;
    assert forall i: nat :: i < |a| ==> s[i] == a[i];
    assert forall i: nat :: i < |b| ==> s[|a| + i] == b[i];
    forall i: nat | i < |a|
      ensures IsCrlf(s, i) <==> IsCrlf(a, i)
    {
      assert i + 1 == |a| < |s| ==> s[i + 1] == b[0];
    }
    forall i: nat | i < |b|
      ensures IsCrlf(s, |a| + i) <==> IsCrlf(b, i)
    {
    }
    if OneLine(s) {
      forall i: nat | i < |b|
        ensures !IsCrlf(b, i)
      {
        assert !IsCrlf(s, |a| + i);
      }
    }
    if OneLine(a) && OneLine(b) {
      forall i: nat | i < |s|
        ensures !IsCrlf(s, i)
      {
        if i >= |a| {
          assert !IsCrlf(b, i - |a|);
        }
      }
    }
  }

  lemma PlainAround(a: bytes, x: bytes, b: bytes)
    requires Plain(a) && Plain(b)
    ensures OneLine(a + x + b) <==> OneLine(x)
  {
    hide OneLine;
    NoCrIsOneLine(a);
    NoCrIsOneLine(b);
    OneLineJoin(a, x);
    OneLineJoin(a + x, b);
  }

  lemma PlainBetween(x: bytes, mid: bytes, y: bytes)
    requires Plain(mid) && mid != []
    ensures OneLine(x + mid + y) <==> OneLine(x) && OneLine(y)
  {
    hide OneLine;
    NoCrIsOneLine(mid);
    OneLineJoin(x, mid);
    OneLineJoin(x + mid, y);
  }

  /** The arguments a reply echoes hold no CR LF. */
  predicate EchoIsClean(args: Command)
    requires args != []
  {
    OneLine(args[0]) && (|args| > 1 ==> OneLine(args[1]))
  }

  lemma UnknownIsOneLine(args: Command)
    requires args != []
    ensures OneLine(Ascii("ERR ") + Unknown(args)) <==> EchoIsClean(args)
  {
    hide Ascii, OneLine, Plain;
    var err, a, b, q := Ascii("ERR "), Ascii("unknown command '"), Ascii("', with args beginning with: "), Ascii("'");
    AsciiIsPlain("ERR ");
    AsciiIsPlain("unknown command '");
    AsciiIsPlain("', with args beginning with: ");
    AsciiIsPlain("'");
    PlainJoin(err, a);
    var x := args[0];
    if |args| > 1 {
      var y := args[1];
      PlainJoin(b, q);
      assert err + (a + x + b + (q + y + q)) == (err + a) + (x + (b + q) + y) + q;
      PlainAround(err + a, x + (b + q) + y, q);
      PlainBetween(x, b + q, y);
    } else {
      assert err + (a + x + b + []) == (err + a) + x + b;
      PlainAround(err + a, x, b);
    }
  }

  lemma PlainJoin(a: bytes, b: bytes)
    requires Plain(a) && Plain(b)
    ensures Plain(a + b)
  {
  }

  // ---- which commands get one value ----

  /** The command is known, or what its error echoes holds no CR LF: a client can see to that before it sends. */
  predicate Speakable(args: Command) {
    args == [] || Registered(args[0]).Some? || EchoIsClean(args)
  }

  /**
   * Every reply is one RESP value on the wire, for any argument bytes and counts; the only exception is
   * the error for an unknown command whose name or first argument holds CR LF.
   */
  lemma ReplyIsFramed(args: Command, m: Table, t: Times, info: bytes)
    ensures Framed(ReplyTo(args, m, t, info)) <==> Speakable(args)
  {
    hide Ascii, OneLine, AnswerOf, Name, WrongArity, EchoIsClean, Unknown;
    if args == [] {
      AsciiHasNoCr("empty command");
      ErrorIsFramed(Ascii("empty command"));
    } else if Registered(args[0]).Some? {
      var kind := Registered(args[0]).value;
      if ArityOk(kind, |args|) {
        AnswerIsFramed(kind, args, m, t, info);
      } else {
        WrongArityIsFramed(kind);
      }
    } else {
      UnknownIsOneLine(args);
    }
  }

  // ---- numbers and lengths ----

  /** Sizes and deadlines as a 64-bit machine can hold them. */
  predicate Holdable(m: Table, info: bytes) {
    && |m| <= INT64_MAX && |info| <= INT64_MAX
    && forall k :: k in m ==> |m[k].value| <= INT64_MAX && m[k].deadline <= INT64_MAX
  }

  predicate ArgsFit(args: Command) {
    |args| <= INT64_MAX && forall i :: 0 <= i < |args| ==> |args[i]| <= INT64_MAX
  }

  lemma {:induction false} DelCountBound(m: Table, keys: seq<bytes>)
    ensures DelCount(m, keys) <= |keys|
    decreases |keys|
  {
    if keys != [] {
      DelCountBound(m - {keys[0]}, keys[1..]);
    }
  }

  lemma LiveKeysBound(m: Table, now: int)
    ensures |LiveKeys(m, now)| <= |m|
  {
    assert LiveKeys(m, now) <= m.Keys;
    SubsetIsSmaller(LiveKeys(m, now), m.Keys);
    assert |m.Keys| == |m|;
  }

  lemma {:induction false} SubsetIsSmaller(a: set<bytes>, b: set<bytes>)
    requires a <= b
    ensures |a| <= |b|
    decreases |a|
  {
    if x :| x in a {
      SubsetIsSmaller(a - {x}, b - {x});
    }
  }

  lemma ReplyInRange(args: Command, m: Table, t: Times, info: bytes)
    requires Holdable(m, info) && ArgsFit(args)
    ensures InRange(ReplyTo(args, m, t, info))
  {
    hide Ascii, Name, LeadingNumber, Upper, Unknown, WrongArity, LiveKeys, DelCount;
    LiveKeysBound(m, t.first);
    if args != [] {
      DelCountBound(m, args[1..]);
    }
  }

  // ---- the stream of replies ----

  /** One call of dispatch: the command, and what it found in the store at what time. */
  datatype Call = Call(args: Command, m: Table, t: Times, info: bytes)

  function ReplyOfCall(c: Call): Reply { ReplyTo(c.args, c.m, c.t, c.info) }

  function OneReply(c: Call): seq<Reply> { [ReplyOfCall(c)] }

  function BytesOfCall(c: Call): bytes { Render(ReplyOfCall(c)) }

  lemma {:induction false} BytesAreRendered(calls: seq<Call>)
    ensures Collect(calls, BytesOfCall) == Collect(Collect(calls, OneReply), Render)
    ensures |Collect(calls, OneReply)| == |calls|
    ensures forall i :: 0 <= i < |calls| ==> Collect(calls, OneReply)[i] == ReplyOfCall(calls[i])
  {
    hide Render, ReplyOfCall;
    if calls != [] {
      BytesAreRendered(calls[1..]);
      var head, tail := ReplyOfCall(calls[0]), Collect(calls[1..], OneReply);
      assert Collect(calls, OneReply) == [head] + tail;
      CollectAppend([head], tail, Render);
      CollectOne(head, Render);
    }
  }

  /**
   * For every sequence of commands, with any argument bytes and counts and whatever each finds in the
   * store: the concatenated outputs of dispatch decode into exactly the replies, one per command, if and
   * only if every command is speakable.
   */
  lemma DispatchStreamDecodes(calls: seq<Call>)
    requires forall i :: 0 <= i < |calls| ==> Holdable(calls[i].m, calls[i].info) && ArgsFit(calls[i].args)
    ensures |Collect(calls, OneReply)| == |calls|
    ensures DecodeAll(Collect(calls, BytesOfCall), |calls|) == Some(Collect(calls, OneReply))
            <==> forall i :: 0 <= i < |calls| ==> Speakable(calls[i].args)
  {
    hide DecodeAll, Collect, Render, InRange, Framed, Speakable, Holdable, ArgsFit, ReplyTo;
    BytesAreRendered(calls);
    var rs := Collect(calls, OneReply);
    forall i | 0 <= i < |calls|
      ensures InRange(rs[i]) && (Framed(rs[i]) <==> Speakable(calls[i].args))
    {
      var c := calls[i];
      ReplyInRange(c.args, c.m, c.t, c.info);
      ReplyIsFramed(c.args, c.m, c.t, c.info);
    }
    RepliesDecodeExactly(rs);
  }

  lemma UnknownByCr(name: bytes)
    requires CR in name
    ensures Registered(name).None?
  {
    hide Name;
    if Registered(name).Some? {
      NameHasNoCr(Registered(name).value);
    }
  }

  lemma BrokenShape(err: bytes, a: bytes, b: bytes)
    ensures [MINUS] + (err + (a + [88, CR, LF] + b + [])) + CRLF == [MINUS] + (err + a + [88]) + CRLF + (b + CRLF)
  {
  }

  lemma DecodeBroken(error: bytes, rest: bytes)
    requires OneLine(error) && rest != [] && rest[0] == 39
    ensures
      var s := [MINUS] + error + CRLF + rest;
      Decode(s) == Some((Failure(error), |error| + 3)) && Decode(s[|error| + 3..]) == None
  {
    hide CrlfAt, ParseDecimal;
    var s := [MINUS] + error + CRLF + rest;
    TextEnd(MINUS, error, rest);
    assert s[1..1 + |error|] == error && s[|error| + 3..] == rest;
  }

  const BROKEN: bytes := [88, CR, LF]

  lemma ReplyToBroken(m: Table, t: Times, info: bytes)
    ensures !Speakable([BROKEN])
    ensures ReplyTo([BROKEN], m, t, info)
         == Failure(Ascii("ERR ") + (Ascii("unknown command '") + BROKEN + Ascii("', with args beginning with: ") + []))
  {
    hide Ascii, Name;
    assert IsCrlf(BROKEN, 1) && BROKEN[1] == CR;
    UnknownByCr(BROKEN);
  }

  lemma QuoteFirst(s: string)
    requires s != "" && s[0] == '\''
    ensures Ascii(s) != [] && Ascii(s)[0] == 39
  {
  }

  /**
   * A command that is not: its name is `X` followed by CR LF. The client reads a shorter error, and the
   * bytes left over are no RESP value.
   */
  lemma EchoBreaksTheStream(m: Table, t: Times, info: bytes)
    ensures
      var wire := Render(ReplyTo([BROKEN], m, t, info));
      var error := Ascii("ERR ") + Ascii("unknown command '") + [88];
      && !Speakable([BROKEN]) && |error| + 3 < |wire|
      && Decode(wire) == Some((Failure(error), |error| + 3)) && Decode(wire[|error| + 3..]) == None
  {
    hide Ascii, Decode, OneLine, ReplyTo, Speakable;
    var err, a, b := Ascii("ERR "), Ascii("unknown command '"), Ascii("', with args beginning with: ");
    ReplyToBroken(m, t, info);
    BrokenShape(err, a, b);
    QuoteFirst("', with args beginning with: ");
    AsciiHasNoCr("ERR ");
    AsciiHasNoCr("unknown command '");
    NoCrIsOneLine(err + a + [88]);
    DecodeBroken(err + a + [88], b + CRLF);
  }
}
