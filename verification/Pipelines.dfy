/** A client's pipeline of requests, as bytes, and what a connection makes of it in whatever pieces it arrives. */
module Pipelines {
  import opened ByteStrings
  import opened RespParser
  import opened RespLaws
  import opened InlineCommands
  import opened Framing
  import opened Sequences

  /** A multibulk frame, an inline line of quoted arguments, or one of words as they are typed. */
  datatype Request = Multibulk(items: Command) | Inline(args: Command) | Typed(words: seq<Word>, trail: bytes)

  predicate Sendable(r: Request) {
    match r
    case Multibulk(items) => Sizes(items)
    case Inline(args) => args != []
    case Typed(words, trail) => StartsLine(words) && WellSpelled(words) && AllGaps(trail, 0)
  }

  function Wire(r: Request): bytes {
    match r
    case Multibulk(items) => Array(items)
    case Inline(args) => QuoteLine(args) + CRLF
    case Typed(words, trail) => WordLine(words, trail) + CRLF
  }

  /** The commands a request stands for: always exactly one. */
  function Meaning(r: Request): seq<Command> {
    match r
    case Multibulk(items) => [items]
    case Inline(args) => if args == [] then [] else [args[0 := Upper(args[0])]]
    case Typed(words, _) =>
      var args := Collect(words, Spoken);
      if args == [] then [] else [args[0 := Upper(args[0])]]
  }

  lemma ParseOfWire(r: Request, tail: bytes)
    requires Sendable(r)
    ensures Parse(Wire(r) + tail) == Complete(Meaning(r), |Wire(r)|)
  {
    hide Parse, Collect, WordLine;
    match r
    case Multibulk(items) => RoundTrip(items, tail);
    case Inline(args) => InlineInvertsQuoting(args, tail);
    case Typed(words, trail) => InlineOfWords(words, trail, tail);
  }

  lemma WireIsCleanHere(r: Request, tail: bytes)
    requires Sendable(r)
    ensures
      var s := Wire(r) + tail;
      s != [] && (s[0] != STAR && CrlfAt(s, 0).Some? ==> LfAt(s, 0) == Some(CrlfAt(s, 0).value + 1))
  {
    hide Parse, Collect, WordLine, QuoteLine;
    if r.Multibulk? {
      assert Wire(r)[0] == STAR;
    } else {
      var line := if r.Inline? then QuoteLine(r.args) else WordLine(r.words, r.trail);
      var s := Wire(r) + tail;
      if r.Inline? {
        QuoteLineIsOneLine(r.args);
      } else {
        InlineOfWords(r.words, r.trail, tail);
      }
      assert IsCrlf(s, |line|);
      assert forall k :: 0 <= k < |line| ==> s[k] == line[k];
      FirstCrlf(s, 0, |line|);
    }
  }

  lemma {:induction false} PipelineExtracts(rs: seq<Request>)
    requires forall i :: 0 <= i < |rs| ==> Sendable(rs[i])
    ensures
      var s := Collect(rs, Wire);
      && Clean(s)
      && Extract(s).Extracted? && Extract(s).rest == []
      && Commands(Extract(s).frames) == Collect(rs, Meaning)
  {
    hide Parse, Wire, Meaning;
    if rs == [] {
      ExtractNothing();
    } else {
      var r, later := rs[0], rs[1..];
      var tail := Collect(later, Wire);
      PipelineExtracts(later);
      ParseOfWire(r, tail);
      WireIsCleanHere(r, tail);
      var s := Wire(r) + tail;
      assert s[|Wire(r)|..] == tail;
      var f := Frame(s[..|Wire(r)|], Meaning(r));
      assert Extract(s) == Prepend([f], Extract(tail));
      CollectAppend([f], Extract(tail).frames, CommandsOf);
      CollectOne(f, CommandsOf);
    }
  }

  /**
   * Multibulk and quoted inline requests, pipelined and delivered in any pieces, are queued as exactly
   * those commands in that order with nothing left over; only the size guard can close the connection, and
   * it does if and only if some read event brings more than fits beside the bytes kept before it.
   */
  lemma PipelineInAnyPieces(rs: seq<Request>, chunks: seq<bytes>, maxRecvBytes: nat)
    requires forall i :: 0 <= i < |rs| ==> Sendable(rs[i])
    requires Stream(chunks) == Collect(rs, Wire)
    ensures
      var end := ReceiveAll(Open([], []), chunks, maxRecvBytes);
      end == if Overflows(chunks, maxRecvBytes) then TooLong else Open(Collect(rs, Meaning), [])
  {
    hide Clean, Extract, Collect, Overflows;
    PipelineExtracts(rs);
    ChunkIndependence(chunks, maxRecvBytes);
  }

  /** So a client that sends no more bytes than the limit in all is never closed. */
  lemma PipelineWithinLimit(rs: seq<Request>, chunks: seq<bytes>, maxRecvBytes: nat)
    requires forall i :: 0 <= i < |rs| ==> Sendable(rs[i])
    requires Stream(chunks) == Collect(rs, Wire) && |Stream(chunks)| <= maxRecvBytes
    ensures ReceiveAll(Open([], []), chunks, maxRecvBytes) == Open(Collect(rs, Meaning), [])
  {
    hide Collect, Overflows;
    PipelineInAnyPieces(rs, chunks, maxRecvBytes);
    if Overflows(chunks, maxRecvBytes) {
      OverflowIsLong(chunks, maxRecvBytes);
    }
  }
}
