/** The commands of src/commands/CommandDispatcher.cpp: what each answers, does and logs. */
module Commands {
  import opened ByteStrings
  import opened RespParser
  import opened Replies
  import opened Aof
  import opened Shards
  import opened StoreRuns
  import opened ExpiryLaws
  import opened Sequences

  datatype Kind = Get | SetCmd | DelCmd | Expire | Ttl | Persist | Ping | Info | KeysCmd | DbSize | CommandCmd

  function Name(kind: Kind): bytes {
    match kind
    case Get => Ascii("GET")
    case SetCmd => Ascii("SET")
    case DelCmd => Ascii("DEL")
    case Expire => Ascii("EXPIRE")
    case Ttl => Ascii("TTL")
    case Persist => Ascii("PERSIST")
    case Ping => Ascii("PING")
    case Info => Ascii("INFO")
    case KeysCmd => Ascii("KEYS")
    case DbSize => Ascii("DBSIZE")
    case CommandCmd => Ascii("COMMAND")
  }

  /** The command table: the names registered by the constructor. */
  function Registered(name: bytes): Option<Kind> {
    if name == Name(Get) then Some(Get)
    else if name == Name(SetCmd) then Some(SetCmd)
    else if name == Name(DelCmd) then Some(DelCmd)
    else if name == Name(Expire) then Some(Expire)
    else if name == Name(Ttl) then Some(Ttl)
    else if name == Name(Persist) then Some(Persist)
    else if name == Name(Ping) then Some(Ping)
    else if name == Name(Info) then Some(Info)
    else if name == Name(KeysCmd) then Some(KeysCmd)
    else if name == Name(DbSize) then Some(DbSize)
    else if name == Name(CommandCmd) then Some(CommandCmd)
    else None
  }

  /** How many arguments a command takes, its name included. */
  predicate ArityOk(kind: Kind, argc: nat) {
    match kind
    case Get => argc == 2
    case SetCmd => 3 <= argc <= 5
    case DelCmd => 2 <= argc
    case Expire => argc == 3
    case Ttl => argc == 2
    case Persist => argc == 2
    case Ping => 1 <= argc <= 2
    case Info => 1 <= argc <= 2
    case KeysCmd => argc == 2
    case DbSize => argc == 1
    case CommandCmd => 1 <= argc
  }

  /** `std::from_chars` with the end pointer ignored: the number at the front of the text. */
  function LeadingNumber(s: bytes): Option<int> {
    var negative := s != [] && s[0] == MINUS;
    var text := if negative then s[1..] else s;
    var run := text[..DigitRun(text)];
    var v: int := Value(run) * (if negative then -1 else 1);
    if run == [] || !(INT64_MIN <= v <= INT64_MAX) then None else Some(v)
  }

  function ErrorReply(message: bytes): Reply { Failure(Ascii("ERR ") + message) }

  /** The time to live in seconds a SET with option asks for: EX as given, PX rounded down but at least 1. */
  function SetTtl(args: Command): Option<int>
    requires |args| == 5
  {
    var opt := Upper(args[3]);
    match LeadingNumber(args[4])
    case None => None
    case Some(n) =>
      if n <= 0 then None
      else if opt == Ascii("EX") then Some(n)
      else Some(if n / 1000 < 1 then 1 else n / 1000)
  }

  predicate SetOption(args: Command)
    requires |args| == 5
  {
    Upper(args[3]) == Ascii("EX") || Upper(args[3]) == Ascii("PX")
  }

  function ExpireTtl(args: Command): Option<int>
    requires |args| == 3
  {
    match LeadingNumber(args[2])
    case None => None
    case Some(n) => if n <= 0 then None else Some(n)
  }

  /** A command's clock: EXPIRE and a GET of an expired key read it twice, the others once or not at all. */
  datatype Times = Times(first: nat, second: nat)

  /** DEL: keys one after the other, counting those that were stored. */
  function DelCount(m: Table, keys: seq<bytes>): nat
    decreases |keys|
  {
    if keys == [] then 0
    else (if keys[0] in m then 1 else 0) + DelCount(m - {keys[0]}, keys[1..])
  }

  function Without(m: Table, keys: seq<bytes>): Table
    decreases |keys|
  {
    if keys == [] then m else Without(m - {keys[0]}, keys[1..])
  }

  /** The reply to a command of the right arity, on a store that holds `m`. `info` stands for INFO's text. */
  function AnswerOf(kind: Kind, args: Command, m: Table, t: Times, info: bytes): Reply
    requires ArityOk(kind, |args|)
  {
    match kind
    case Get => (match GetAnswer(m, args[1], t.first) case Some(v) => Bulk(v) case None => Nil)
    case SetCmd =>
      if |args| == 3 then Simple(Ascii("OK"))
      else if |args| == 5 && SetOption(args) then
        if SetTtl(args).Some? then Simple(Ascii("OK"))
        else ErrorReply(Ascii("invalid expire time in 'set' command"))
      else ErrorReply(Ascii("syntax error"))
    case DelCmd => Integer(DelCount(m, args[1..]))
    case Expire =>
      if ExpireTtl(args).None? then ErrorReply(Ascii("value is not an integer or out of range"))
      else Integer(if ExpireAnswer(m, args[1], t.second) then 1 else 0)
    case Ttl => Integer(TtlAnswer(m, args[1], t.first))
    case Persist => Integer(if PersistAnswer(m, args[1], t.first) then 1 else 0)
    case Ping => if |args| > 1 then Bulk(args[1]) else Simple(Ascii("PONG"))
    case Info => Bulk(info)
    case KeysCmd => Bulk(info)
    case DbSize => Integer(|LiveKeys(m, t.first)|)
    case CommandCmd => EmptyArray
  }

  /** What the command leaves in the store, as far as clients can see. */
  function EffectOfKind(kind: Kind, args: Command, m: Table, t: Times): Table
    requires ArityOk(kind, |args|)
  {
    match kind
    case SetCmd =>
      if |args| == 3 then m[args[1] := Entry(args[2], -1)]
      else if |args| == 5 && SetOption(args) && SetTtl(args).Some? then
        m[args[1] := Entry(args[2], t.first + SetTtl(args).value * 1000)]
      else m
    case DelCmd => Without(m, args[1..])
    case Expire =>
      if ExpireTtl(args).Some? && ExpireAnswer(m, args[1], t.second) then
        m[args[1] := Entry(m[args[1]].value, t.first + ExpireTtl(args).value * 1000)]
      else m
    case Persist =>
      if PersistAnswer(m, args[1], t.first) then m[args[1] := Entry(m[args[1]].value, -1)] else m
    case _ => m
  }

  function Unknown(args: Command): bytes
    requires args != []
  {
    Ascii("unknown command '") + args[0] + Ascii("', with args beginning with: ")
    + (if |args| > 1 then Ascii("'") + args[1] + Ascii("'") else [])
  }

  function WrongArity(kind: Kind): bytes {
    Ascii("wrong number of arguments for '") + Name(kind) + Ascii("' command")
  }

  function ReplyTo(args: Command, m: Table, t: Times, info: bytes): Reply {
    if args == [] then ErrorReply(Ascii("empty command"))
    else
      match Registered(args[0])
      case None => ErrorReply(Unknown(args))
      case Some(kind) =>
        if !ArityOk(kind, |args|) then ErrorReply(WrongArity(kind)) else AnswerOf(kind, args, m, t, info)
  }

  function EffectOf(args: Command, m: Table, t: Times): Table {
    if args == [] || Registered(args[0]).None? || !ArityOk(Registered(args[0]).value, |args|) then m
    else EffectOfKind(Registered(args[0]).value, args, m, t)
  }

  // ---- PX ----

  lemma NumberOfDecimal(n: nat)
    requires n <= INT64_MAX
    ensures LeadingNumber(Decimal(n)) == Some(n)
  {
    var ds := Digits(n);
    ValueOfDigits(n);
    DigitRunIsAll(ds);
    assert IsDigit(ds[0]) && ds[..|ds|] == ds;
  }

  predicate AsksPx(args: Command, n: int) {
    |args| == 5 && Upper(args[3]) == Ascii("PX") && LeadingNumber(args[4]) == Some(n) && 0 < n
  }

  /** `PX n` gives the key at least n milliseconds if and only if n is less than a second or full seconds. */
  lemma PxRoundsUpExactly(args: Command, n: int)
    requires AsksPx(args, n)
    ensures SetTtl(args).Some?
    ensures n <= SetTtl(args).value * 1000 <==> n < 1000 || n % 1000 == 0
  {
    hide LeadingNumber, Upper;
    assert Ascii("PX")[0] != Ascii("EX")[0];
  }

  /** Otherwise the key expires early: `PX 1999` is one second. */
  lemma PxCutsShort(k: bytes, v: bytes)
    ensures
      var args := [Name(SetCmd), k, v, Ascii("PX"), Decimal(1999)];
      AsksPx(args, 1999) && SetTtl(args) == Some(1)
  {
    hide LeadingNumber, Name;
    NumberOfDecimal(1999);
    assert Upper(Ascii("PX")) == Ascii("PX");
    assert Ascii("PX")[0] != Ascii("EX")[0];
  }

  // ---- what a command logs ----

  function DelOf(k: bytes): seq<Record> { [Del(k)] }

  /** The records a command of the right arity writes to the log. */
  function RecordsOfKind(kind: Kind, args: Command, m: Table, t: Times): seq<Record>
    requires ArityOk(kind, |args|)
  {
    match kind
    case SetCmd =>
      if |args| == 3 then [Set(args[1], args[2])]
      else if |args| == 5 && SetOption(args) && SetTtl(args).Some? then
        [SetPxat(args[1], args[2], t.first + SetTtl(args).value * 1000)]
      else []
    case DelCmd => Collect(args[1..], DelOf)
    case Expire =>
      if ExpireTtl(args).Some? && ExpireAnswer(m, args[1], t.second) then
        [PExpireAt(args[1], t.first + ExpireTtl(args).value * 1000)]
      else []
    case Persist => if PersistAnswer(m, args[1], t.first) then [Set(args[1], m[args[1]].value)] else []
    case _ => []
  }

  function RecordsOf(args: Command, m: Table, t: Times): seq<Record> {
    if args == [] || Registered(args[0]).None? || !ArityOk(Registered(args[0]).value, |args|) then []
    else RecordsOfKind(Registered(args[0]).value, args, m, t)
  }

  lemma FoldOne(m: Table, r: Record)
    ensures FoldFrom(m, [r]) == Apply(m, r)
  {
    FoldPush(m, [], r);
    assert [] + [r] == [r];
  }

  lemma {:induction false} DelsMeanRemoval(m: Table, keys: seq<bytes>)
    ensures FoldFrom(m, Collect(keys, DelOf)) == Without(m, keys)
    decreases |keys|
  {
    if keys != [] {
      FoldAppend(m, [Del(keys[0])], Collect(keys[1..], DelOf));
      FoldOne(m, Del(keys[0]));
      DelsMeanRemoval(m - {keys[0]}, keys[1..]);
    }
  }

  /** For every command, what it logs means what it does: the log of a command is its effect. */
  lemma RecordsMeanEffect(args: Command, m: Table, t: Times)
    ensures FoldFrom(m, RecordsOf(args, m, t)) == EffectOf(args, m, t)
  {
    hide Name, Ascii, Upper, LeadingNumber, FoldFrom, Collect, Without;
    var records := RecordsOf(args, m, t);
    FoldNothing(m);
    if args != [] {
      DelsMeanRemoval(m, args[1..]);
    }
    if |records| == 1 {
      FoldOne(m, records[0]);
    }
  }

  lemma FoldNothing(m: Table)
    ensures FoldFrom(m, []) == m
  {
  }

  // ---- the limits of int64_t ----

  /** A SET with option asks for a deadline within `int64_t` milliseconds; beyond that the code overflows. */
  predicate SetFits(args: Command, now: int) {
    |args| == 5 && SetOption(args) && SetTtl(args).Some? ==> now + SetTtl(args).value * 1000 <= INT64_MAX
  }

  /** So does an EXPIRE. */
  predicate ExpireFits(args: Command, now: int) {
    |args| == 3 && ExpireTtl(args).Some? ==> now + ExpireTtl(args).value * 1000 <= INT64_MAX
  }

  /** No other command computes a deadline. */
  predicate NoOverflow(args: Command, now: int) {
    args != [] ==>
      && (Registered(args[0]) == Some(SetCmd) ==> SetFits(args, now))
      && (Registered(args[0]) == Some(Expire) ==> ExpireFits(args, now))
  }

  /** The name in upper case, the other arguments as they came. */
  function Normalized(args: Command): Command {
    if args == [] then [] else args[0 := Upper(args[0])]
  }
}
