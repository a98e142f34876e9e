/**
 * The request parser of src/protocol/RespParser.cpp.
 *
 * Each cursor loop of the parser is a method, proved to compute a function on the bytes; the laws of
 * the protocol are stated about those functions (RespLaws, InlineCommands, Framing).
 */
module RespParser {
  import opened ByteStrings

  type Command = seq<bytes>

  /** `cmds` is what the call appends to `out_cmds`: one command, or none for a blank inline line. */
  datatype Verdict =
    | Complete(cmds: seq<Command>, consumed: nat)
    | Incomplete
    | Error

  // ---- find_crlf and parse_integer ----

  predicate IsCrlf(v: bytes, i: nat) {
    i + 1 < |v| && v[i] == CR && v[i + 1] == LF
  }

  /** Index of the first CR LF pair at or after `from`. */
  function CrlfAt(v: bytes, from: nat): (r: Option<nat>)
    ensures r.Some? ==> from <= r.value && IsCrlf(v, r.value)
    ensures forall i :: from <= i < (if r.Some? then r.value else |v|) ==> !IsCrlf(v, i)
    decreases |v| - from
  {
    if from + 1 >= |v| then None
    else if IsCrlf(v, from) then Some(from)
    else CrlfAt(v, from + 1)
  }

  method FindCrlf(v: bytes, from: nat) returns (r: Option<nat>)
    ensures r == CrlfAt(v, from)
  {
    var i := from;
    while i + 1 < |v|
      invariant from <= i
      invariant CrlfAt(v, from) == CrlfAt(v, i)
    {
      if v[i] == CR && v[i + 1] == LF {
        return Some(i);
      }
      i := i + 1;
    }
    r := None;
  }

  /** The number on the line starting at `from`, and the index just past that line. */
  function IntegerAt(v: bytes, from: nat): (r: Option<(int, nat)>)
    ensures r.Some? ==> from + 2 <= r.value.1 <= |v|
  {
    match CrlfAt(v, from)
    case None => None
    case Some(crlf) =>
      match ParseDecimal(v[from..crlf])
      case None => None
      case Some(n) => Some((n, crlf + 2))
  }

  // ---- parse_multibulk ----

  /** What one turn of the argument loop finds: an argument and the next position, or a reason to stop. */
  datatype Turn = Arg(arg: bytes, next: nat) | Stop(verdict: Verdict)

  function ArgAt(data: bytes, pos: nat): (r: Turn)
    ensures r.Arg? ==> pos < r.next <= |data|
    ensures r.Stop? ==> !r.verdict.Complete?
  {
    if pos >= |data| then Stop(Incomplete)
    else if data[pos] != DOLLAR then Stop(Error)
    else
      match IntegerAt(data, pos + 1)
      case None => Stop(Incomplete)
      case Some((len, start)) =>
        if len < 0 then Stop(Error)
        else if start + len + 2 > |data| then Stop(Incomplete)
        else Arg(data[start..start + len], start + len + 2)
  }

  /** What is left of the argument loop at position `pos` with `n` arguments to go. */
  function ParseArgs(data: bytes, pos: nat, n: nat, args: Command): (r: Verdict)
    ensures r.Complete? && pos <= |data| ==> pos <= r.consumed <= |data|
    decreases n
  {
    if n == 0 then Complete([args], pos)
    else
      match ArgAt(data, pos)
      case Stop(verdict) => verdict
      case Arg(arg, next) => ParseArgs(data, next, n - 1, args + [arg])
  }

  function ParseMultibulk(data: bytes): (r: Verdict)
    ensures r.Complete? ==> 1 <= r.consumed <= |data|
  {
    match IntegerAt(data, 1)
    case None => Incomplete
    case Some((nargs, pos)) => if nargs < 0 then Error else ParseArgs(data, pos, nargs, [])
  }

  method ReadInteger(v: bytes, from: nat) returns (r: Option<(int, nat)>)
    ensures r == IntegerAt(v, from)
  {
    var crlf := FindCrlf(v, from);
    if crlf.None? {
      return None;
    }
    var n := ParseDecimal(v[from..crlf.value]);
    r := if n.None? then None else Some((n.value, crlf.value + 2));
  }

  method ReadArg(data: bytes, pos: nat) returns (r: Turn)
    ensures r == ArgAt(data, pos)
  {
    if pos >= |data| {
      return Stop(Incomplete);
    }
    if data[pos] != DOLLAR {
      return Stop(Error);
    }
    var length := ReadInteger(data, pos + 1);
    if length.None? {
      return Stop(Incomplete);
    }
    var len, start := length.value.0, length.value.1;
    if len < 0 {
      return Stop(Error);
    }
    if start + len + 2 > |data| {
      return Stop(Incomplete);
    }
    r := Arg(data[start..start + len], start + len + 2);
  }

  method RunArgs(data: bytes, start: nat, nargs: nat) returns (r: Verdict)
    ensures r == ParseArgs(data, start, nargs, [])
  {
    var args: Command, pos: nat := [], start;
    ghost var whole := ParseArgs(data, start, nargs, []);
    for i := 0 to nargs
      invariant whole == ParseArgs(data, pos, nargs - i, args)
    {
      var turn := ReadArg(data, pos);
      if turn.Stop? {
        return turn.verdict;
      }
      args := args + [turn.arg];
      pos := turn.next;
    }
    r := Complete([args], pos);
  }

  method RunMultibulk(data: bytes) returns (r: Verdict)
    ensures r == ParseMultibulk(data)
  {
    var header := ReadInteger(data, 1);
    if header.None? {
      return Incomplete;
    }
    var nargs, pos := header.value.0, header.value.1;
    if nargs < 0 {
      return Error;
    }
    if nargs == 0 {
      return Complete([[]], pos);
    }
    r := RunArgs(data, pos, nargs);
  }

  // ---- parse_inline ----

  predicate IsGap(b: byte) { b == SPACE || b == TAB }

  function SkipGap(line: bytes, i: nat): (j: nat)
    requires i <= |line|
    ensures i <= j <= |line|
    ensures forall k :: i <= k < j ==> IsGap(line[k])
    ensures j < |line| ==> !IsGap(line[j])
    decreases |line| - i
  {
    if i < |line| && IsGap(line[i]) then SkipGap(line, i + 1) else i
  }

  function PlainEnd(line: bytes, i: nat): (j: nat)
    requires i <= |line|
    ensures i <= j <= |line|
    ensures forall k :: i <= k < j ==> !IsGap(line[k])
    ensures j < |line| ==> IsGap(line[j])
    decreases |line| - i
  {
    if i < |line| && !IsGap(line[i]) then PlainEnd(line, i + 1) else i
  }

  /** The byte that a backslash followed by `b` stands for inside double quotes. */
  function Unescape(b: byte): byte {
    if b == 110 then LF else if b == 114 then CR else if b == 116 then TAB else b
  }

  /** Rest of a quoted token: its bytes, and the index just past the closing quote if there is one. */
  function Quoted(line: bytes, i: nat): (r: (bytes, nat))
    requires i <= |line|
    ensures i <= r.1 <= |line|
    decreases |line| - i
  {
    if i >= |line| then ([], i)
    else if line[i] == QUOTE then ([], i + 1)
    else if line[i] == BACKSLASH && i + 1 < |line| then
      var (t, j) := Quoted(line, i + 2);
      ([Unescape(line[i + 1])] + t, j)
    else
      var (t, j) := Quoted(line, i + 1);
      ([line[i]] + t, j)
  }

  /** One token starting at the non-blank byte `i`. */
  function TokenAt(line: bytes, i: nat): (r: (bytes, nat))
    requires i < |line| && !IsGap(line[i])
    ensures i < r.1 <= |line|
  {
    if line[i] == QUOTE then Quoted(line, i + 1)
    else (line[i..PlainEnd(line, i)], PlainEnd(line, i))
  }

  function Tokens(line: bytes, i: nat): Command
    requires i <= |line|
    decreases |line| - i
  {
    var j := SkipGap(line, i);
    if j >= |line| then []
    else
      var (t, k) := TokenAt(line, j);
      [t] + Tokens(line, k)
  }

  function ToUpper(b: byte): byte { if 97 <= b <= 122 then b - 32 else b }

  function Upper(s: bytes): (r: bytes)
    ensures |r| == |s|
    ensures forall i :: 0 <= i < |s| ==> r[i] == ToUpper(s[i])
  {
    seq(|s|, i requires 0 <= i < |s| => ToUpper(s[i]))
  }

  /** A line with tokens is one command, its name in upper case; a blank line is none. */
  function CommandsOfLine(line: bytes): seq<Command> {
    var args := Tokens(line, 0);
    if args == [] then [] else [args[0 := Upper(args[0])]]
  }

  function LfAt(v: bytes, from: nat): (r: Option<nat>)
    ensures r.Some? ==> from <= r.value < |v| && v[r.value] == LF
    ensures forall i :: from <= i < (if r.Some? then r.value else |v|) ==> v[i] != LF
    decreases |v| - from
  {
    if from >= |v| then None else if v[from] == LF then Some(from) else LfAt(v, from + 1)
  }

  /** Where a line ends whose only terminator is the LF at `lf`. */
  function BareLineEnd(data: bytes, lf: nat): (end: nat)
    requires lf < |data|
    ensures end <= lf
  {
    if lf > 0 && data[lf - 1] == CR then lf - 1 else lf
  }

  function ParseInline(data: bytes): (r: Verdict)
    ensures r.Complete? ==> 1 <= r.consumed <= |data|
  {
    match CrlfAt(data, 0)
    case Some(crlf) => Complete(CommandsOfLine(data[..crlf]), crlf + 2)
    case None =>
      match LfAt(data, 0)
      case None => Incomplete
      case Some(lf) =>
        Complete(CommandsOfLine(data[..BareLineEnd(data, lf)]), lf + 1)
  }

  lemma QuotedUnfolds(line: bytes, i: nat)
    requires i <= |line|
    ensures
      var q, escaped := Quoted(line, i), i + 1 < |line| && line[i] == BACKSLASH;
      if i >= |line| then q == ([], i)
      else if line[i] == QUOTE then q == ([], i + 1)
      else
        var later := Quoted(line, if escaped then i + 2 else i + 1);
        q.0 == [if escaped then Unescape(line[i + 1]) else line[i]] + later.0 && q.1 == later.1
  {
  }

  method ReadQuoted(line: bytes, start: nat) returns (token: bytes, i: nat)
    requires start <= |line|
    ensures token == Quoted(line, start).0 && i == Quoted(line, start).1
  {
    hide Quoted;
    token, i := [], start;
    assert [] + Quoted(line, start).0 == Quoted(line, start).0;
    while i < |line| && line[i] != QUOTE
      invariant start <= i <= |line|
      invariant Quoted(line, start).0 == token + Quoted(line, i).0
      invariant Quoted(line, start).1 == Quoted(line, i).1
    {
      QuotedUnfolds(line, i);
      if line[i] == BACKSLASH && i + 1 < |line| {
        i := i + 1;
        token := token + [Unescape(line[i])];
      } else {
        token := token + [line[i]];
      }
      i := i + 1;
    }
    QuotedUnfolds(line, i);
    if i < |line| {
      i := i + 1;
    }
  }

  /** One more token: what the tokens from `i` on are once the blanks before `j` are skipped. */
  lemma TokensUnfold(line: bytes, i: nat, j: nat, args: Command)
    requires i <= j <= |line| && SkipGap(line, i) == SkipGap(line, j) && (j < |line| ==> !IsGap(line[j]))
    ensures j == |line| ==> Tokens(line, i) == []
    ensures j < |line| ==>
      args + Tokens(line, i) == args + [TokenAt(line, j).0] + Tokens(line, TokenAt(line, j).1)
  {
    hide TokenAt;
  }

  method Tokenize(line: bytes) returns (args: Command)
    ensures args == Tokens(line, 0)
  {
    hide Quoted, Tokens;
    args := [];
    var i := 0;
    assert [] + Tokens(line, 0) == Tokens(line, 0);
    while i < |line|
      invariant 0 <= i <= |line|
      invariant Tokens(line, 0) == args + Tokens(line, i)
    {
      ghost var before := i;
      while i < |line| && IsGap(line[i])
        invariant before <= i <= |line|
        invariant SkipGap(line, before) == SkipGap(line, i)
      {
        i := i + 1;
      }
      TokensUnfold(line, before, i, args);
      if i >= |line| {
        break;
      }
      var token: bytes;
      ghost var begin := i;
      if line[i] == QUOTE {
        token, i := ReadQuoted(line, i + 1);
      } else {
        var start := i;
        while i < |line| && !IsGap(line[i])
          invariant start <= i <= |line|
          invariant PlainEnd(line, start) == PlainEnd(line, i)
        {
          i := i + 1;
        }
        token := line[start..i];
      }
      assert token == TokenAt(line, begin).0 && i == TokenAt(line, begin).1;
      args := args + [token];
    }
    if i == |line| {
      TokensUnfold(line, i, i, args);
    }
  }

  method RunInline(data: bytes) returns (r: Verdict)
    ensures r == ParseInline(data)
  {
    var crlf := FindCrlf(data, 0);
    var end: nat, consumed: nat;
    if crlf.None? {
      var lf := LfAt(data, 0);
      if lf.None? {
        return Incomplete;
      }
      end := BareLineEnd(data, lf.value);
      consumed := lf.value + 1;
    } else {
      end := crlf.value;
      consumed := crlf.value + 2;
    }
    var args := Tokenize(data[..end]);
    if args == [] {
      return Complete([], consumed);
    }
    r := Complete([args[0 := Upper(args[0])]], consumed);
  }

  // ---- parse ----

  function Parse(data: bytes): (r: Verdict)
    ensures r.Complete? ==> 1 <= r.consumed <= |data|
  {
    if data == [] then Incomplete
    else if data[0] == STAR then ParseMultibulk(data)
    else ParseInline(data)
  }

  method RunParse(data: bytes) returns (r: Verdict)
    ensures r == Parse(data)
    ensures r.Complete? ==> 1 <= r.consumed <= |data|
  {
    if data == [] {
      return Incomplete;
    }
    if data[0] == STAR {
      r := RunMultibulk(data);
    } else {
      r := RunInline(data);
    }
  }
}
