/**
 * Frame extraction (EpollReactor::extract_frames and the buffering in handle_read): bytes are
 * conserved, and the commands do not depend on how the stream was cut into reads.
 */
module Framing {
  import opened ByteStrings
  import opened RespParser
  import opened RespLaws
  import opened Sequences

  /** One consumed frame: its bytes, and the commands (none or one) read from it. */
  datatype Frame = Frame(raw: bytes, cmds: seq<Command>)

  datatype Extraction = Extracted(frames: seq<Frame>, rest: bytes) | Broken

  function RawOf(f: Frame): bytes { f.raw }

  function CommandsOf(f: Frame): seq<Command> { f.cmds }

  function Raw(frames: seq<Frame>): bytes { Collect(frames, RawOf) }

  function Commands(frames: seq<Frame>): seq<Command> { Collect(frames, CommandsOf) }

  function Prepend(frames: seq<Frame>, x: Extraction): Extraction {
    if x.Broken? then Broken else Extracted(frames + x.frames, x.rest)
  }

  /** The successive parses of a buffer, up to the first frame that is not complete. */
  function Extract(buf: bytes): Extraction
    decreases |buf|
  {
    match Parse(buf)
    case Incomplete => Extracted([], buf)
    case Error => Broken
    case Complete(cmds, k) => Prepend([Frame(buf[..k], cmds)], Extract(buf[k..]))
  }

  lemma ExtractNothing()
    ensures Extract([]) == Extracted([], [])
  {
  }

  lemma PrependNothing(x: Extraction)
    ensures Prepend([], x) == x
  {
    if x.Extracted? {
      assert [] + x.frames == x.frames;
    }
  }

  lemma PrependTwice(a: seq<Frame>, b: seq<Frame>, x: Extraction)
    ensures Prepend(a, Prepend(b, x)) == Prepend(a + b, x)
  {
    if x.Extracted? {
      assert a + (b + x.frames) == a + b + x.frames;
    }
  }

  lemma PrependInjective(f: Frame, x: Extraction, y: Extraction)
    ensures Prepend([f], x) == Prepend([f], y) <==> x == y
  {
    if x.Extracted? && y.Extracted? && Prepend([f], x) == Prepend([f], y) {
      assert x.frames == ([f] + x.frames)[1..] == ([f] + y.frames)[1..] == y.frames;
    }
  }

  /** Without a parse error the consumed frames followed by what is kept are the buffer. */
  lemma {:induction false} ExtractConserves(buf: bytes)
    requires Extract(buf).Extracted?
    ensures Raw(Extract(buf).frames) + Extract(buf).rest == buf
    decreases |buf|
  {
    hide Parse, Collect;
    if Parse(buf).Complete? {
      var k := Parse(buf).consumed;
      ExtractConserves(buf[k..]);
      var f := Frame(buf[..k], Parse(buf).cmds);
      var x := Extract(buf[k..]);
      CollectAppend([f], x.frames, RawOf);
      CollectOne(f, RawOf);
      assert buf[..k] + buf[k..] == buf;
      JoinThree(buf[..k], Raw(x.frames), x.rest);
    } else {
      CollectNothing<Frame, byte>([], RawOf);
    }
  }

  /** What is kept yields no further frame: extraction never leaves a complete command behind. */
  lemma {:induction false} RestIsSettled(buf: bytes)
    requires Extract(buf).Extracted?
    ensures Parse(Extract(buf).rest).Incomplete?
    decreases |buf|
  {
    if Parse(buf).Complete? {
      RestIsSettled(buf[Parse(buf).consumed..]);
    }
  }

  method ExtractFrames(buf: bytes) returns (alive: bool, cmds: seq<Command>, rest: bytes)
    ensures alive <==> Extract(buf).Extracted?
    ensures alive ==> cmds == Commands(Extract(buf).frames) && rest == Extract(buf).rest
  {
    hide Parse, Collect;
    var consumed := 0;
    CollectNothing<Frame, Command>([], CommandsOf);
    assert Prepend([], Extract(buf)) == Extract(buf) by { PrependNothing(Extract(buf)); }
    ghost var frames: seq<Frame> := [];
    cmds, alive := [], true;
    assert buf[0..] == buf;
    while consumed < |buf|
      invariant 0 <= consumed <= |buf| && alive
      invariant cmds == Commands(frames)
      invariant Extract(buf) == Prepend(frames, Extract(buf[consumed..]))
    {
      var data := buf[consumed..];
      var r := RunParse(data);
      if r.Complete? {
        var f := Frame(data[..r.consumed], r.cmds);
        CollectPush(frames, f, CommandsOf);
        PrependTwice(frames, [f], Extract(data[r.consumed..]));
        assert data[r.consumed..] == buf[consumed + r.consumed..];
        frames := frames + [f];
        cmds := cmds + r.cmds;
        consumed := consumed + r.consumed;
      } else if r.Incomplete? {
        break;
      } else {
        alive := false;
        break;
      }
    }
    rest := if alive then buf[consumed..] else buf;
    ExtractNothing();
    assert alive ==> Extract(rest) == Extracted([], rest) && frames + [] == frames;
  }

  // ---- independence from the cutting of the stream ----

  /**
   * At every inline line of the stream that CR LF ends, no bare LF comes before that CR LF. Nothing is
   * asked of '*' frames, whose arguments may hold any bytes.
   */
  predicate Clean(s: bytes)
    decreases |s|
  {
    s == [] ||
    (&& (s[0] != STAR && CrlfAt(s, 0).Some? ==> LfAt(s, 0) == Some(CrlfAt(s, 0).value + 1))
     && (Parse(s).Complete? ==> Clean(s[Parse(s).consumed..])))
  }

  lemma CrlfInPrefix(x: bytes, y: bytes, i: nat)
    requires i + 1 < |x| && IsCrlf(x + y, i)
    ensures CrlfAt(x, 0).Some?
  {
    assert IsCrlf(x, i);
  }

  lemma PrefixVerdictStands(x: bytes, y: bytes)
    requires Clean(x + y) && !Parse(x).Incomplete?
    ensures Parse(x + y) == Parse(x)
  {
    var s := x + y;
    if x[0] == STAR {
      MultibulkIsStable(x, y);
    } else if CrlfAt(x, 0).Some? {
      LineIsStable(x, y);
    } else {
      var lf := LfAt(x, 0).value;
      LfBeforeIsStable(x, lf, y);
      if CrlfAt(s, 0).Some? {
        CrlfInPrefix(x, y, CrlfAt(s, 0).value);
      }
      var end := BareLineEnd(x, lf);
      assert s[..end] == x[..end];
    }
  }

  /** Reading `x` first and `y` later extracts the same frames as reading both at once. */
  predicate SplitAgrees(x: bytes, y: bytes) {
    match Extract(x)
    case Broken => Extract(x + y).Broken?
    case Extracted(frames, rest) => Extract(x + y) == Prepend(frames, Extract(rest + y))
  }

  lemma {:induction false} CleanSplitAgrees(x: bytes, y: bytes)
    requires Clean(x + y)
    ensures SplitAgrees(x, y)
    ensures Extract(x).Extracted? ==> Clean(Extract(x).rest + y)
    decreases |x|
  {
    match Parse(x)
    case Incomplete =>
      PrependNothing(Extract(x + y));
    case Error =>
      PrefixVerdictStands(x, y);
    case Complete(cmds, k) =>
      PrefixVerdictStands(x, y);
      assert (x + y)[k..] == x[k..] + y && (x + y)[..k] == x[..k];
      CleanSplitAgrees(x[k..], y);
      if Extract(x[k..]).Extracted? {
        var inner := Extract(x[k..]);
        PrependTwice([Frame(x[..k], cmds)], inner.frames, Extract(inner.rest + y));
      }
  }

  // The inbox of a connection: commands queued so far and the bytes kept for the next read event.

  datatype Inbox =
    | Open(cmds: seq<Command>, buf: bytes)
    | TooLong     // closed by the guard on max_recv_bytes
    | Malformed   // closed by a parse error; the commands of that read event are dropped

  /** One read event: everything the socket had is appended, then the complete frames are taken out. */
  function Receive(inbox: Inbox, chunk: bytes, maxRecvBytes: nat): Inbox {
    if !inbox.Open? then inbox
    else if |inbox.buf + chunk| > maxRecvBytes then TooLong
    else
      match Extract(inbox.buf + chunk)
      case Broken => Malformed
      case Extracted(frames, rest) => Open(inbox.cmds + Commands(frames), rest)
  }

  function ReceiveAll(inbox: Inbox, chunks: seq<bytes>, maxRecvBytes: nat): Inbox
    decreases |chunks|
  {
    if chunks == [] then inbox
    else ReceiveAll(Receive(inbox, chunks[0], maxRecvBytes), chunks[1..], maxRecvBytes)
  }

  lemma {:induction false} ReceivePush(inbox: Inbox, chunks: seq<bytes>, chunk: bytes, maxRecvBytes: nat)
    ensures ReceiveAll(inbox, chunks + [chunk], maxRecvBytes)
         == Receive(ReceiveAll(inbox, chunks, maxRecvBytes), chunk, maxRecvBytes)
    decreases |chunks|
  {
    hide Receive;
    if chunks == [] {
      assert (chunks + [chunk])[1..] == [];
    } else {
      ReceivePush(Receive(inbox, chunks[0], maxRecvBytes), chunks[1..], chunk, maxRecvBytes);
      assert (chunks + [chunk])[1..] == chunks[1..] + [chunk];
    }
  }

  function Same(chunk: bytes): bytes { chunk }

  function Stream(chunks: seq<bytes>): bytes { Collect(chunks, Same) }

  /** What a run of read events leaves, next to what one read of the same bytes would leave. */
  predicate MatchesOneRead(end: Inbox, cmds: seq<Command>, whole: Extraction) {
    && (end.Open? ==> whole.Extracted? && end.buf == whole.rest && end.cmds == cmds + Commands(whole.frames))
    && (end.Malformed? ==> whole.Broken?)
  }

  lemma {:induction false} ReceiveClosed(inbox: Inbox, chunks: seq<bytes>, maxRecvBytes: nat)
    requires !inbox.Open?
    ensures ReceiveAll(inbox, chunks, maxRecvBytes) == inbox
    decreases |chunks|
  {
    if chunks != [] {
      ReceiveClosed(inbox, chunks[1..], maxRecvBytes);
    }
  }

  lemma PrependMatches(end: Inbox, cmds: seq<Command>, frames: seq<Frame>, x: Extraction)
    requires MatchesOneRead(end, cmds + Commands(frames), x)
    ensures MatchesOneRead(end, cmds, Prepend(frames, x))
  {
    hide Collect;
    if x.Extracted? {
      CollectAppend(frames, x.frames, CommandsOf);
      assert cmds + Commands(frames) + Commands(x.frames) == cmds + (Commands(frames) + Commands(x.frames));
    }
  }

  lemma {:induction false} ChunksMatchOneRead(cmds: seq<Command>, buf: bytes, chunks: seq<bytes>, maxRecvBytes: nat)
    requires Parse(buf).Incomplete? && Clean(buf + Stream(chunks))
    ensures MatchesOneRead(ReceiveAll(Open(cmds, buf), chunks, maxRecvBytes), cmds, Extract(buf + Stream(chunks)))
    decreases |chunks|
  {
    hide Parse, Collect, Clean;
    if chunks == [] {
      CollectNothing<bytes, byte>(chunks, Same);
      CollectNothing<Frame, Command>([], CommandsOf);
      assert buf + Stream(chunks) == buf && cmds + Commands([]) == cmds;
    } else {
      var chunk, later := chunks[0], chunks[1..];
      assert chunks == [chunk] + later;
      CollectAppend([chunk], later, Same);
      CollectOne(chunk, Same);
      var x := buf + chunk;
      assert buf + Stream(chunks) == x + Stream(later);
      CleanSplitAgrees(x, Stream(later));
      var next := Receive(Open(cmds, buf), chunk, maxRecvBytes);
      if next.Open? {
        var frames := Extract(x).frames;
        RestIsSettled(x);
        ChunksMatchOneRead(next.cmds, next.buf, later, maxRecvBytes);
        PrependMatches(ReceiveAll(next, later, maxRecvBytes), cmds, frames, Extract(next.buf + Stream(later)));
      } else {
        ReceiveClosed(next, later, maxRecvBytes);
      }
    }
  }

  /** The bytes kept before read event `i`, as one read of all bytes before it would keep them. */
  function KeptBefore(chunks: seq<bytes>, i: nat): bytes
    requires i <= |chunks|
  {
    var before := Extract(Stream(chunks[..i]));
    if before.Extracted? then before.rest else []
  }

  /** Some read event brings more than fits beside the bytes kept before it. */
  predicate Overflows(chunks: seq<bytes>, maxRecvBytes: nat) {
    exists i :: 0 <= i < |chunks| && |KeptBefore(chunks, i)| + |chunks[i]| > maxRecvBytes
  }

  /** A stream that is clean is so up to any byte. */
  lemma {:induction false} CleanPrefix(x: bytes, y: bytes)
    requires Clean(x + y)
    ensures Clean(x)
    decreases |x|
  {
    hide Parse;
    if x != [] {
      assert (x + y)[0] == x[0];
      if CrlfAt(x, 0).Some? {
        CrlfStays(x, y);
      }
      if Parse(x).Complete? {
        var k := Parse(x).consumed;
        PrefixVerdictStands(x, y);
        assert (x + y)[k..] == x[k..] + y;
        CleanPrefix(x[k..], y);
      }
    }
  }

  lemma CrlfStays(x: bytes, y: bytes)
    requires CrlfAt(x, 0).Some?
    ensures CrlfAt(x + y, 0) == CrlfAt(x, 0) && LfAt(x + y, 0) == LfAt(x, 0)
  {
    var i := CrlfAt(x, 0).value;
    forall k | 0 <= k < i
      ensures !IsCrlf(x + y, k)
    {
      assert !IsCrlf(x, k);
    }
    assert IsCrlf(x + y, i);
    FirstCrlf(x + y, 0, i);
    LfBeforeIsStable(x, LfAt(x, 0).value, y);
  }

  lemma OverflowStays(chunks: seq<bytes>, n: nat, maxRecvBytes: nat)
    requires n < |chunks|
    ensures Overflows(chunks[..n + 1], maxRecvBytes) <==>
      Overflows(chunks[..n], maxRecvBytes) || |KeptBefore(chunks, n)| + |chunks[n]| > maxRecvBytes
  {
    hide Extract, Collect;
    var p, q := chunks[..n], chunks[..n + 1];
    forall i | 0 <= i <= n
      ensures KeptBefore(q, i) == KeptBefore(chunks, i) && (i < n ==> KeptBefore(p, i) == KeptBefore(chunks, i))
    {
      assert q[..i] == chunks[..i] && (i < n ==> p[..i] == chunks[..i]);
    }
    assert q[n] == chunks[n];
    if i :| 0 <= i < |q| && |KeptBefore(q, i)| + |q[i]| > maxRecvBytes {
      if i < n {
        assert p[i] == q[i];
      }
    }
    if i :| 0 <= i < |p| && |KeptBefore(p, i)| + |p[i]| > maxRecvBytes {
      assert q[i] == p[i] && |KeptBefore(q, i)| + |q[i]| > maxRecvBytes;
    }
    if |KeptBefore(chunks, n)| + |chunks[n]| > maxRecvBytes {
      assert |KeptBefore(q, n)| + |q[n]| > maxRecvBytes;
    }
  }

  lemma {:induction false} GuardStrikesOnOverflow(chunks: seq<bytes>, n: nat, maxRecvBytes: nat)
    requires Clean(Stream(chunks)) && n <= |chunks|
    ensures
      var end := ReceiveAll(Open([], []), chunks[..n], maxRecvBytes);
      && (end.TooLong? ==> Overflows(chunks[..n], maxRecvBytes))
      && (end.Open? ==> !Overflows(chunks[..n], maxRecvBytes))
    decreases n
  {
    hide Clean, Extract, Collect, Overflows, KeptBefore;
    if n == 0 {
      NoOverflowYet(maxRecvBytes);
      assert chunks[..0] == [];
    } else {
      var m := n - 1;
      var p := chunks[..m];
      GuardStrikesOnOverflow(chunks, m, maxRecvBytes);
      assert chunks[..n] == p + [chunks[m]];
      ReceivePush(Open([], []), p, chunks[m], maxRecvBytes);
      OverflowStays(chunks, m, maxRecvBytes);
      if ReceiveAll(Open([], []), p, maxRecvBytes).Open? {
        assert p + chunks[m..] == chunks;
        CollectAppend(p, chunks[m..], Same);
        CleanPrefix(Stream(p), Stream(chunks[m..]));
        OneReadKeeps(p, maxRecvBytes);
        KeptUnfolds(chunks, m);
      }
    }
  }

  lemma NoOverflowYet(maxRecvBytes: nat)
    ensures !Overflows([], maxRecvBytes)
  {
  }

  lemma KeptUnfolds(chunks: seq<bytes>, i: nat)
    requires i <= |chunks| && Extract(Stream(chunks[..i])).Extracted?
    ensures KeptBefore(chunks, i) == Extract(Stream(chunks[..i])).rest
  {
    hide Extract, Collect;
  }

  lemma OneReadKeeps(chunks: seq<bytes>, maxRecvBytes: nat)
    requires Clean(Stream(chunks)) && ReceiveAll(Open([], []), chunks, maxRecvBytes).Open?
    ensures
      var whole := Extract(Stream(chunks));
      whole.Extracted? && ReceiveAll(Open([], []), chunks, maxRecvBytes).buf == whole.rest
  {
    hide Clean, Extract, Collect;
    assert [] + Stream(chunks) == Stream(chunks);
    ChunksMatchOneRead([], [], chunks, maxRecvBytes);
  }

  /** Only a client that sends more than the limit can be struck. */
  lemma OverflowIsLong(chunks: seq<bytes>, maxRecvBytes: nat)
    requires Overflows(chunks, maxRecvBytes)
    ensures |Stream(chunks)| > maxRecvBytes
  {
    hide Extract, Collect;
    var i :| 0 <= i < |chunks| && |KeptBefore(chunks, i)| + |chunks[i]| > maxRecvBytes;
    CollectAt(chunks, i, Same);
    var before := Stream(chunks[..i]);
    if Extract(before).Extracted? {
      ExtractConserves(before);
    }
  }

  /**
   * Chunk independence: however a clean stream is cut into read events, a connection that stays open
   * has queued exactly the commands of one read of the whole stream and kept the same bytes; one closed
   * by a parse error would have been closed by the one read. The size guard closes it if and only if, up
   * to there, some read event brings more than fits beside the bytes kept before it.
   */
  lemma ChunkIndependence(chunks: seq<bytes>, maxRecvBytes: nat)
    requires Clean(Stream(chunks))
    ensures
      var whole := Extract(Stream(chunks));
      match ReceiveAll(Open([], []), chunks, maxRecvBytes)
      case Open(cmds, buf) =>
        && whole.Extracted? && cmds == Commands(whole.frames) && buf == whole.rest
        && !Overflows(chunks, maxRecvBytes)
      case Malformed => whole.Broken?
      case TooLong => Overflows(chunks, maxRecvBytes)
  {
    hide Clean, Extract, Collect, Overflows;
    assert [] + Stream(chunks) == Stream(chunks);
    ChunksMatchOneRead([], [], chunks, maxRecvBytes);
    assert chunks[..|chunks|] == chunks;
    GuardStrikesOnOverflow(chunks, |chunks|, maxRecvBytes);
    var whole := Extract(Stream(chunks));
    if whole.Extracted? {
      assert [] + Commands(whole.frames) == Commands(whole.frames);
    }
  }

  // ---- and exactly when ----

  lemma CrlfWithin(v: bytes, from: nat, m: nat)
    requires m <= |v| && CrlfAt(v, from).Some? && CrlfAt(v, from).value + 2 <= m
    ensures CrlfAt(v[..m], from) == CrlfAt(v, from)
  {
    var i := CrlfAt(v, from).value;
    forall k | from <= k < i
      ensures !IsCrlf(v[..m], k)
    {
      assert !IsCrlf(v, k);
    }
    FirstCrlf(v[..m], from, i);
  }

  lemma IntegerWithin(v: bytes, from: nat, m: nat)
    requires m <= |v| && IntegerAt(v, from).Some? && IntegerAt(v, from).value.1 <= m
    ensures IntegerAt(v[..m], from) == IntegerAt(v, from)
  {
    CrlfWithin(v, from, m);
    var i := CrlfAt(v, from).value;
    assert v[..m][from..i] == v[from..i];
  }

  lemma ArgWithin(data: bytes, pos: nat, m: nat)
    requires m <= |data| && ArgAt(data, pos).Arg? && ArgAt(data, pos).next <= m
    ensures ArgAt(data[..m], pos) == ArgAt(data, pos)
  {
    hide CrlfAt, ParseDecimal;
    IntegerWithin(data, pos + 1, m);
    var (len, start) := IntegerAt(data, pos + 1).value;
    assert data[..m][start..start + len] == data[start..start + len];
  }

  lemma {:induction false} ArgsWithin(data: bytes, pos: nat, n: nat, args: Command, m: nat)
    requires pos <= m <= |data|
    requires ParseArgs(data, pos, n, args).Complete? && ParseArgs(data, pos, n, args).consumed <= m
    ensures ParseArgs(data[..m], pos, n, args) == ParseArgs(data, pos, n, args)
    decreases n
  {
    hide ArgAt;
    if n > 0 {
      var turn := ArgAt(data, pos);
      var after := ParseArgs(data, turn.next, n - 1, args + [turn.arg]);
      assert after == ParseArgs(data, pos, n, args) && turn.next <= after.consumed;
      ArgWithin(data, pos, m);
      ArgsWithin(data, turn.next, n - 1, args + [turn.arg], m);
    }
  }

  /** A complete frame is decided by its own bytes: what lies behind it played no part. */
  lemma FrameSuffices(s: bytes, m: nat)
    requires Parse(s).Complete? && Parse(s).consumed <= m <= |s|
    ensures Parse(s[..m]) == Parse(s)
  {
    if s[0] == STAR {
      IntegerWithin(s, 1, m);
      var (nargs, pos) := IntegerAt(s, 1).value;
      ArgsWithin(s, pos, nargs, [], m);
    } else if CrlfAt(s, 0).Some? {
      CrlfWithin(s, 0, m);
      var i := CrlfAt(s, 0).value;
      assert s[..m][..i] == s[..i];
    } else {
      BareLineWithin(s, m);
    }
  }

  lemma NoCrlfWithin(s: bytes, m: nat)
    requires m <= |s| && CrlfAt(s, 0).None?
    ensures CrlfAt(s[..m], 0).None?
  {
    assert forall i: nat :: IsCrlf(s[..m], i) ==> IsCrlf(s, i);
  }

  lemma BareLineWithin(s: bytes, m: nat)
    requires s != [] && s[0] != STAR && CrlfAt(s, 0).None?
    requires LfAt(s, 0).Some? && LfAt(s, 0).value < m <= |s|
    ensures Parse(s[..m]) == Parse(s)
  {
    hide CommandsOfLine;
    var lf := LfAt(s, 0).value;
    NoCrlfWithin(s, m);
    assert LfAt(s[..m], 0) == Some(lf) by {
      assert s[..m][lf] == LF;
      assert forall k :: 0 <= k < lf ==> s[..m][k] == s[k];
    }
    var end := BareLineEnd(s, lf);
    assert s[..m][..end] == s[..end];
  }

  /** The first frame of a stream that is not clean there, cut just behind its bare LF, is read differently. */
  lemma BareLfDisagrees(s: bytes)
    requires s != [] && s[0] != STAR && CrlfAt(s, 0).Some?
    requires LfAt(s, 0) != Some(CrlfAt(s, 0).value + 1)
    requires Extract(s).Extracted?
    ensures exists x, y :: x + y == s && !SplitAgrees(x, y)
  {
    hide Extract, SplitAgrees, Parse;
    ParseUpToLf(s);
    var lf := LfAt(s, 0).value;
    var x, y := s[..lf + 1], s[lf + 1..];
    assert x + y == s;
    ParseOfLine(s);
    ShorterFrameDisagrees(s, x, y);
  }

  lemma ParseOfLine(s: bytes)
    requires s != [] && s[0] != STAR && CrlfAt(s, 0).Some?
    ensures Parse(s).Complete? && Parse(s).consumed == CrlfAt(s, 0).value + 2
  {
    hide CommandsOfLine;
  }

  lemma ParseUpToLf(s: bytes)
    requires s != [] && s[0] != STAR && CrlfAt(s, 0).Some?
    requires LfAt(s, 0) != Some(CrlfAt(s, 0).value + 1)
    ensures LfAt(s, 0).Some? && LfAt(s, 0).value < CrlfAt(s, 0).value
    ensures var x := s[..LfAt(s, 0).value + 1]; Parse(x).Complete? && Parse(x).consumed == |x|
  {
    hide CommandsOfLine;
    assert s[CrlfAt(s, 0).value + 1] == LF;
    var lf := LfAt(s, 0).value;
    var x, y := s[..lf + 1], s[lf + 1..];
    assert x + y == s;
    if CrlfAt(x, 0).Some? {
      CrlfIsStable(x, 0, y);
    }
    assert x[lf] == LF;
    assert forall k :: 0 <= k < lf ==> x[k] == s[k];
  }

  lemma ShorterFrameDisagrees(s: bytes, x: bytes, y: bytes)
    requires x + y == s && Extract(s).Extracted?
    requires Parse(x).Complete? && Parse(x).consumed == |x|
    requires Parse(s).Complete? && Parse(s).consumed > |x|
    ensures !SplitAgrees(x, y)
  {
    hide Parse;
    assert x[|x|..] == [] && x[..|x|] == x;
    ExtractNothing();
    var f := Frame(x, Parse(x).cmds);
    assert Extract(x) == Extracted([f], []) by {
      assert [f] + [] == [f];
    }
    assert [] + y == y;
    assert Extract(s).frames[0].raw == s[..Parse(s).consumed];
  }

  lemma FramesShift(s: bytes, k: nat, x: bytes, y: bytes)
    requires Parse(s).Complete? && Parse(s).consumed == k
    requires Extract(s).Extracted?
    requires x + y == s[k..] && !SplitAgrees(x, y)
    ensures exists x', y' :: x' + y' == s && !SplitAgrees(x', y')
  {
    hide Parse;
    var x' := s[..k] + x;
    assert x' + y == s && s[..k + |x|] == x';
    FrameSuffices(s, k + |x|);
    var f := Frame(s[..k], Parse(s).cmds);
    assert x'[..k] == s[..k] && x'[k..] == x;
    assert Extract(x') == Prepend([f], Extract(x));
    assert Extract(s) == Prepend([f], Extract(x + y));
    if Extract(x).Extracted? {
      var inner := Extract(x);
      PrependTwice([f], inner.frames, Extract(inner.rest + y));
      PrependInjective(f, Extract(x + y), Prepend(inner.frames, Extract(inner.rest + y)));
    }
    assert !SplitAgrees(x', y);
  }

  lemma {:induction false} UncleanDisagrees(s: bytes)
    requires !Clean(s) && Extract(s).Extracted?
    ensures exists x, y :: x + y == s && !SplitAgrees(x, y)
    decreases |s|
  {
    if s[0] != STAR && CrlfAt(s, 0).Some? && LfAt(s, 0) != Some(CrlfAt(s, 0).value + 1) {
      BareLfDisagrees(s);
    } else {
      var k := Parse(s).consumed;
      UncleanDisagrees(s[k..]);
      var x, y :| x + y == s[k..] && !SplitAgrees(x, y);
      FramesShift(s, k, x, y);
    }
  }

  /** The exact condition: a stream reads the same at every cut if and only if it is clean. */
  lemma CutsAgreeExactlyWhenClean(s: bytes)
    requires Extract(s).Extracted?
    ensures Clean(s) <==> forall x, y :: x + y == s ==> SplitAgrees(x, y)
  {
    if Clean(s) {
      forall x, y | x + y == s
        ensures SplitAgrees(x, y)
      {
        CleanSplitAgrees(x, y);
      }
    } else {
      UncleanDisagrees(s);
    }
  }
}
