/** The append-only file of src/store/AofWriter.cpp: records as bytes, and the reader that replays them. */
module Aof {
  import opened ByteStrings
  import opened RespParser
  import opened RespLaws
  import opened Sequences

  datatype Record =
    | Set(key: bytes, value: bytes)
    | SetPxat(key: bytes, value: bytes, deadline: int)
    | Del(key: bytes)
    | PExpireAt(key: bytes, deadline: int)

  const SET: bytes := [83, 69, 84]
  const PXAT: bytes := [80, 88, 65, 84]
  const DEL: bytes := [68, 69, 76]
  const PEXPIREAT: bytes := [80, 69, 88, 80, 73, 82, 69, 65, 84]

  // ---- the writer ----

  /** The bytes of one record, as log_set, log_set_ex, log_del and log_expire build them. */
  function Encode(r: Record): bytes {
    match r
    case Set(k, v) => [STAR, 51, CR, LF] + BulkString(SET) + BulkString(k) + BulkString(v)
    case SetPxat(k, v, d) =>
      [STAR, 53, CR, LF] + BulkString(SET) + BulkString(k) + BulkString(v) + BulkString(PXAT) + BulkString(Decimal(d))
    case Del(k) => [STAR, 50, CR, LF] + BulkString(DEL) + BulkString(k)
    case PExpireAt(k, d) => [STAR, 51, CR, LF] + BulkString(PEXPIREAT) + BulkString(k) + BulkString(Decimal(d))
  }

  function Log(rs: seq<Record>): bytes { Collect(rs, Encode) }

  class AofWriter {
    const isOpen: bool
    var file: bytes

    constructor (writable: bool, existing: bytes)
      ensures isOpen == writable && file == existing
    {
      isOpen, file := writable, existing;
    }

    method WriteResp(cmd: bytes)
      modifies this`file
      ensures file == if isOpen then old(file) + cmd else old(file)
    {
      if !isOpen {
        return;
      }
      file := file + cmd;
    }

    /** Any of the four log operations: the record's bytes go to the end of the file, whole. */
    method Append(r: Record)
      modifies this`file
      ensures file == if isOpen then old(file) + Encode(r) else old(file)
    {
      WriteResp(Encode(r));
    }
  }

  // ---- the reader's stream ----

  /** A `std::ifstream`: a cursor and the two flags that make further reads fail. */
  datatype Input = Input(data: bytes, pos: nat, eof: bool, fail: bool) {
    predicate Valid() { pos <= |data| }
    predicate Good() { !eof && !fail }

    /** What is still to be read. */
    function Ahead(): bytes
      requires Valid()
    {
      data[pos..]
    }
  }

  /** `std::getline`: up to the next LF, or the rest of the file if there is none. */
  function GetLine(f: Input): (r: (Input, Option<bytes>))
    requires f.Valid()
    ensures r.0.Valid() && r.0.data == f.data && r.0.pos >= f.pos
    ensures r.1.Some? ==> r.0.pos > f.pos
  {
    if !f.Good() then (f.(fail := true), None)
    else
      match LfAt(f.data, f.pos)
      case Some(lf) => (f.(pos := lf + 1), Some(f.data[f.pos..lf]))
      case None =>
        if f.pos == |f.data| then (f.(eof := true, fail := true), None)
        else (f.(pos := |f.data|, eof := true), Some(f.data[f.pos..]))
  }

  /** `istream::read`: exactly `n` bytes, or failure. */
  function Read(f: Input, n: nat): (r: (Input, Option<bytes>))
    requires f.Valid()
    ensures r.0.Valid() && r.0.data == f.data && r.0.pos >= f.pos
  {
    if !f.Good() then (f.(fail := true), None)
    else if f.pos + n <= |f.data| then (f.(pos := f.pos + n), Some(f.data[f.pos..f.pos + n]))
    else (f.(pos := |f.data|, eof := true, fail := true), None)
  }

  function StripCr(s: bytes): bytes {
    if s != [] && s[|s| - 1] == CR then s[..|s| - 1] else s
  }

  function ReadBulk(f: Input): (r: (Input, Option<bytes>))
    requires f.Valid()
    ensures r.0.Valid() && r.0.data == f.data && r.0.pos >= f.pos
  {
    var (f1, line) := GetLine(f);
    if line.None? then (f1, None)
    else
      var hdr := StripCr(line.value);
      if hdr == [] || hdr[0] != DOLLAR then (f1, None)
      else
        match StringToNumber(hdr[1..], INT64_MIN, INT64_MAX)
        case None => (f1, None)
        case Some(len) =>
          if len < 0 then (f1, Some([]))
          else
            var (f2, out) := Read(f1, len);
            if out.None? then (f2, None) else (GetLine(f2).0, out)
  }

  /** The argument loop: `n` bulk strings, or failure as soon as one is missing. */
  function ReadArgs(f: Input, n: nat, args: Command): (r: (Input, Option<Command>))
    requires f.Valid()
    ensures r.0.Valid() && r.0.data == f.data && r.0.pos >= f.pos
    decreases n
  {
    if n == 0 then (f, Some(args))
    else
      var (f1, arg) := ReadBulk(f);
      if arg.None? then (f1, None) else ReadArgs(f1, n - 1, args + [arg.value])
  }

  /** Which callback a complete command invokes, if any. */
  function Interpret(args: Command): seq<Record> {
    if args == [] then []
    else if args[0] == SET then
      if |args| == 3 then [Set(args[1], args[2])]
      else if |args| == 5 && args[3] == PXAT then
        match StringToNumber(args[4], INT64_MIN, INT64_MAX)
        case Some(d) => if d > 0 then [SetPxat(args[1], args[2], d)] else []
        case None => []
      else []
    else if args[0] == DEL && |args| == 2 then [Del(args[1])]
    else if args[0] == PEXPIREAT && |args| == 3 then
      match StringToNumber(args[2], INT64_MIN, INT64_MAX)
      case Some(d) => if d > 0 then [PExpireAt(args[1], d)] else []
      case None => []
    else []
  }

  /** One turn of the replay loop: where it goes on and what it called, or how the loop ends. */
  datatype Turn = Next(f: Input, calls: seq<Record>) | End | LengthError

  function ReplayTurn(f: Input): (r: Turn)
    requires f.Valid()
    ensures r.Next? ==> r.f.Valid() && r.f.data == f.data && r.f.pos > f.pos
  {
    if !f.Good() || f.pos == |f.data| then End
    else
      var (f1, line) := GetLine(f);
      if line.None? then End
      else
        var hdr := StripCr(line.value);
        if hdr == [] then Next(f1, [])
        else if hdr[0] != STAR then End
        else
          match StringToNumber(hdr[1..], INT32_MIN, INT32_MAX)
          case None => End
          case Some(n) =>
            if n < 0 then LengthError  // reserve of a negative count throws
            else
              var (f2, args) := ReadArgs(f1, n, []);
              if args.None? || args.value == [] then End else Next(f2, Interpret(args.value))
  }

  /** The callback invocations of a replay, in order, and whether it ended normally. */
  function ReplayFrom(f: Input): (r: (seq<Record>, bool))
    requires f.Valid()
    decreases |f.data| - f.pos
  {
    match ReplayTurn(f)
    case End => ([], true)
    case LengthError => ([], false)
    case Next(f1, calls) =>
      var (later, ok) := ReplayFrom(f1);
      (calls + later, ok)
  }

  lemma ReplayUnfolds(f: Input, calls: seq<Record>)
    requires f.Valid()
    ensures
      var turn := ReplayTurn(f);
      && (turn.End? ==> ReplayFrom(f) == ([], true)) && (turn.LengthError? ==> ReplayFrom(f) == ([], false))
      && (turn.Next? ==>
            && ReplayFrom(f).1 == ReplayFrom(turn.f).1
            && calls + ReplayFrom(f).0 == calls + turn.calls + ReplayFrom(turn.f).0)
  {
    hide ReplayTurn;
  }

  function Start(file: bytes): Input { Input(file, 0, false, false) }

  method Replay(file: bytes) returns (calls: seq<Record>, count: nat, ok: bool)
    ensures calls == ReplayFrom(Start(file)).0 && ok == ReplayFrom(Start(file)).1
    ensures count == |calls|
  {
    hide ReplayTurn, ReplayFrom;
    calls, count, ok := [], 0, true;
    var f := Start(file);
    ghost var whole := ReplayFrom(f);
    assert [] + whole.0 == whole.0;
    while true
      invariant f.Valid() && ok && count == |calls|
      invariant whole.0 == calls + ReplayFrom(f).0 && whole.1 == ReplayFrom(f).1
      decreases |f.data| - f.pos
    {
      var turn := ReplayTurn(f);
      ReplayUnfolds(f, calls);
      if turn.End? {
        break;
      }
      if turn.LengthError? {
        ok := false;
        break;
      }
      calls, count := calls + turn.calls, count + |turn.calls|;
      f := turn.f;
    }
  }
}
