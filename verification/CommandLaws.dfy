/**
 * What a client can rely on, in the words it sends: the command table, replies as bytes, and laws that tie
 * commands to each other through what GET and TTL answer.
 */
module CommandLaws {
  import opened ByteStrings
  import opened RespParser
  import opened Replies
  import opened Shards
  import opened StoreRuns
  import opened ExpiryLaws
  import opened Commands

  // ---- the command table ----

  lemma AsciiShape(s: string)
    requires s != ""
    ensures |Ascii(s)| == |s| && Ascii(s)[0] == s[0] as int % 256
  {
  }

  lemma NameShapes()
    ensures
      && |Name(Get)| == 3 && Name(Get)[0] == 71 && |Name(SetCmd)| == 3 && Name(SetCmd)[0] == 83
      && |Name(DelCmd)| == 3 && Name(DelCmd)[0] == 68 && |Name(Ttl)| == 3 && Name(Ttl)[0] == 84
      && |Name(Ping)| == 4 && Name(Ping)[0] == 80 && |Name(Info)| == 4 && Name(Info)[0] == 73
      && |Name(KeysCmd)| == 4 && Name(KeysCmd)[0] == 75
      && |Name(Expire)| == 6 && Name(Expire)[0] == 69 && |Name(DbSize)| == 6 && Name(DbSize)[0] == 68
      && |Name(Persist)| == 7 && Name(Persist)[0] == 80 && |Name(CommandCmd)| == 7 && Name(CommandCmd)[0] == 67
  {
    hide Ascii;
    AsciiShape("GET");
    AsciiShape("SET");
    AsciiShape("DEL");
    AsciiShape("TTL");
    AsciiShape("PING");
    AsciiShape("INFO");
    AsciiShape("KEYS");
    AsciiShape("EXPIRE");
    AsciiShape("DBSIZE");
    AsciiShape("PERSIST");
    AsciiShape("COMMAND");
  }

  lemma NamesAreKnown(kind: Kind)
    ensures Registered(Name(kind)) == Some(kind)
  {
    NameShapes();
    hide Name;
  }

  /** The eleven words of the command table. */
  lemma CommandTable()
    ensures Registered(Ascii("GET")) == Some(Get) && Registered(Ascii("SET")) == Some(SetCmd)
    ensures Registered(Ascii("DEL")) == Some(DelCmd) && Registered(Ascii("EXPIRE")) == Some(Expire)
    ensures Registered(Ascii("TTL")) == Some(Ttl) && Registered(Ascii("PERSIST")) == Some(Persist)
    ensures Registered(Ascii("PING")) == Some(Ping) && Registered(Ascii("INFO")) == Some(Info)
    ensures Registered(Ascii("KEYS")) == Some(KeysCmd) && Registered(Ascii("DBSIZE")) == Some(DbSize)
    ensures Registered(Ascii("COMMAND")) == Some(CommandCmd)
  {
    hide Ascii, Registered;
    NamesAreKnown(Get);
    NamesAreKnown(SetCmd);
    NamesAreKnown(DelCmd);
    NamesAreKnown(Expire);
    NamesAreKnown(Ttl);
    NamesAreKnown(Persist);
    NamesAreKnown(Ping);
    NamesAreKnown(Info);
    NamesAreKnown(KeysCmd);
    NamesAreKnown(DbSize);
    NamesAreKnown(CommandCmd);
  }

  /** And no other word is a command. */
  lemma NoOtherCommand(name: bytes)
    requires name != Ascii("GET") && name != Ascii("SET") && name != Ascii("DEL") && name != Ascii("EXPIRE")
    requires name != Ascii("TTL") && name != Ascii("PERSIST") && name != Ascii("PING") && name != Ascii("INFO")
    requires name != Ascii("KEYS") && name != Ascii("DBSIZE") && name != Ascii("COMMAND")
    ensures Registered(name).None?
  {
    hide Ascii;
  }

  /** How many words, the name included, each command takes; with any other number it is refused by name. */
  predicate TakesWords(name: bytes, n: nat) {
    if name == Ascii("GET") || name == Ascii("TTL") || name == Ascii("PERSIST") || name == Ascii("KEYS") then n == 2
    else if name == Ascii("SET") then n == 3 || n == 4 || n == 5
    else if name == Ascii("EXPIRE") then n == 3
    else if name == Ascii("DEL") then n >= 2
    else if name == Ascii("PING") || name == Ascii("INFO") then n == 1 || n == 2
    else if name == Ascii("DBSIZE") then n == 1
    else name == Ascii("COMMAND") && n >= 1
  }

  lemma ArityIsExact(args: Command, m: Table, t: Times, info: bytes)
    requires args != [] && Registered(args[0]).Some?
    ensures TakesWords(args[0], |args|) <==> ArityOk(Registered(args[0]).value, |args|)
    ensures !TakesWords(args[0], |args|) ==>
      && EffectOf(args, m, t) == m
      && ReplyTo(args, m, t, info)
         == Failure(Ascii("ERR ") + (Ascii("wrong number of arguments for '") + args[0] + Ascii("' command")))
  {
    hide Ascii, TakesWords, ArityOk, Registered, Name;
    RegisteredIsName(args[0]);
    WordsOfKind(Registered(args[0]).value, |args|);
  }

  lemma RegisteredIsName(name: bytes)
    requires Registered(name).Some?
    ensures name == Name(Registered(name).value)
  {
    hide Name;
  }

  lemma WordsOfKind(kind: Kind, n: nat)
    ensures TakesWords(Name(kind), n) <==> ArityOk(kind, n)
  {
    hide Ascii;
    NameShapes();
  }

  // ---- replies as bytes ----

  /** The replies a client sees most, byte by byte. */
  lemma RepliesOnTheWire()
    ensures Render(Simple(Ascii("OK"))) == Ascii("+OK\r\n")
    ensures Render(Failure(Ascii("ERR x"))) == Ascii("-ERR x\r\n")
    ensures Render(Nil) == Ascii("$-1\r\n") && Render(EmptyArray) == Ascii("*0\r\n")
    ensures Render(Integer(1)) == Ascii(":1\r\n") && Render(Integer(-2)) == Ascii(":-2\r\n")
    ensures Render(Bulk(Ascii("hello"))) == Ascii("$5\r\nhello\r\n")
  {
    TextsOnTheWire();
    FixedOnTheWire();
    NumbersOnTheWire();
    BulkOnTheWire();
    hide Ascii, Render, Decimal;
  }

  lemma TextsOnTheWire()
    ensures Render(Simple(Ascii("OK"))) == Ascii("+OK\r\n")
    ensures Render(Failure(Ascii("ERR x"))) == Ascii("-ERR x\r\n")
  {
  }

  lemma FixedOnTheWire()
    ensures Render(Nil) == Ascii("$-1\r\n") && Render(EmptyArray) == Ascii("*0\r\n")
  {
  }

  lemma NumbersOnTheWire()
    ensures Render(Integer(1)) == Ascii(":1\r\n") && Render(Integer(-2)) == Ascii(":-2\r\n")
  {
    assert Decimal(1) == [49] && Decimal(-2) == [45, 50];
  }

  /** A numeral is read up to its end, whatever text follows; text that begins otherwise is no number. */
  lemma NumberStopsAtText(n: nat, rest: bytes)
    requires n <= INT64_MAX && (rest != [] ==> !IsDigit(rest[0]))
    ensures LeadingNumber(Decimal(n) + rest) == Some(n)
    ensures rest != [] && rest[0] != MINUS ==> LeadingNumber(rest) == None
    ensures Decimal(1990) == Ascii("1990")
  {
    var ds := Digits(n);
    DigitRunStops(ds, rest);
    ValueOfDigits(n);
    assert IsDigit(ds[0]) && (ds + rest)[0] == ds[0] && (ds + rest)[..|ds|] == ds;
    assert Digits(1990) == Digits(199) + [48] && Digits(199) == Digits(19) + [57] && Digits(19) == Digits(1) + [57];
  }

  lemma {:induction false} DigitRunStops(ds: bytes, rest: bytes)
    requires AllDigits(ds) && (rest != [] ==> !IsDigit(rest[0]))
    ensures DigitRun(ds + rest) == |ds|
    decreases |ds|
  {
    if ds == [] {
      assert ds + rest == rest;
    } else {
      assert (ds + rest)[1..] == ds[1..] + rest;
      DigitRunStops(ds[1..], rest);
    }
  }

  lemma BulkOnTheWire()
    ensures Render(Bulk(Ascii("hello"))) == Ascii("$5\r\nhello\r\n")
  {
    var word := Ascii("hello");
    assert Decimal(|word|) == [53];
    assert Render(Bulk(word)) == [36, 53, 13, 10] + word + [13, 10];
    assert Ascii("$5\r\nhello\r\n") == Ascii("$5\r\n") + word + Ascii("\r\n");
  }

  // ---- single commands ----

  lemma Known(args: Command, kind: Kind, m: Table, t: Times, info: bytes)
    requires args != [] && Registered(args[0]) == Some(kind) && ArityOk(kind, |args|)
    ensures ReplyTo(args, m, t, info) == AnswerOf(kind, args, m, t, info)
    ensures EffectOf(args, m, t) == EffectOfKind(kind, args, m, t)
  {
    hide Name, Ascii, AnswerOf, EffectOfKind, Registered;
  }

  /** GET answers the value shown under the key, or nil; it changes nothing. */
  lemma GetLaw(k: bytes, m: Table, t: Times, info: bytes)
    ensures
      var shown := Shown(m, k, t.first);
      && ReplyTo([Ascii("GET"), k], m, t, info) == (if shown.Some? then Bulk(shown.value.value) else Nil)
      && EffectOf([Ascii("GET"), k], m, t) == m
  {
    hide Ascii, Registered;
    CommandTable();
    Known([Ascii("GET"), k], Get, m, t, info);
  }

  /** TTL answers the full seconds left, -1 without deadline, -2 for a key not shown. */
  lemma TtlLaw(k: bytes, m: Table, t: Times, info: bytes)
    ensures
      var r := ReplyTo([Ascii("TTL"), k], m, t, info);
      && r.Integer? && SecondsLeft(Shown(m, k, t.first), t.first, r.n)
      && EffectOf([Ascii("TTL"), k], m, t) == m
  {
    hide Ascii, Registered;
    CommandTable();
    Known([Ascii("TTL"), k], Ttl, m, t, info);
    AnswersMean(m, k, t.first);
  }

  /** SET answers OK; from then on and for ever the key shows the value, without deadline; no other key changes. */
  lemma SetLaw(k: bytes, v: bytes, m: Table, t: Times, info: bytes, x: bytes, now: int)
    ensures
      var args := [Ascii("SET"), k, v];
      && ReplyTo(args, m, t, info) == Simple(Ascii("OK"))
      && Shown(EffectOf(args, m, t), x, now) == if x == k then Some(Entry(v, -1)) else Shown(m, x, now)
  {
    hide Ascii, Registered;
    CommandTable();
    Known([Ascii("SET"), k, v], SetCmd, m, t, info);
  }

  lemma OptionNumber(k: bytes, v: bytes, opt: bytes, n: nat)
    requires 0 < n <= INT64_MAX && (Upper(opt) == Ascii("EX") || Upper(opt) == Ascii("PX"))
    ensures
      var args := [Ascii("SET"), k, v, opt, Decimal(n)];
      && SetOption(args) && SetTtl(args).Some?
      && (Upper(opt) == Ascii("EX") ==> SetTtl(args).value == n)
      && (Upper(opt) == Ascii("PX") ==> SetTtl(args).value == if n < 2000 then 1 else n / 1000)
  {
    assert Ascii("PX")[0] != Ascii("EX")[0];
    hide Ascii, LeadingNumber, Upper;
    NumberOfDecimal(n);
  }

  /**
   * SET with EX n, in either case of letters: the key shows the value until exactly n seconds after the
   * command read the clock, and from then on nothing; no other key changes.
   */
  lemma SetExLaw(k: bytes, v: bytes, opt: bytes, n: nat, m: Table, t: Times, info: bytes, x: bytes, now: int)
    requires 0 < n <= INT64_MAX && Upper(opt) == Ascii("EX")
    ensures
      var args := [Ascii("SET"), k, v, opt, Decimal(n)];
      && ReplyTo(args, m, t, info) == Simple(Ascii("OK"))
      && Shown(EffectOf(args, m, t), x, now) ==
           if x != k then Shown(m, x, now)
           else if now < t.first + n * 1000 then Some(Entry(v, t.first + n * 1000))
           else None
  {
    hide Ascii, Registered, Upper, SetTtl, SetOption;
    CommandTable();
    OptionNumber(k, v, opt, n);
    Known([Ascii("SET"), k, v, opt, Decimal(n)], SetCmd, m, t, info);
  }

  /** SET with PX n: the same, with the milliseconds rounded down to full seconds but at least one. */
  lemma SetPxLaw(k: bytes, v: bytes, opt: bytes, n: nat, m: Table, t: Times, info: bytes, x: bytes, now: int)
    requires 0 < n <= INT64_MAX && Upper(opt) == Ascii("PX")
    ensures
      var args := [Ascii("SET"), k, v, opt, Decimal(n)];
      var end := t.first + (if n < 2000 then 1000 else n / 1000 * 1000);
      && ReplyTo(args, m, t, info) == Simple(Ascii("OK"))
      && Shown(EffectOf(args, m, t), x, now) ==
           if x != k then Shown(m, x, now) else if now < end then Some(Entry(v, end)) else None
  {
    hide Ascii, Registered, Upper, SetTtl, SetOption;
    CommandTable();
    OptionNumber(k, v, opt, n);
    Known([Ascii("SET"), k, v, opt, Decimal(n)], SetCmd, m, t, info);
  }

  /** A SET that is refused: an unknown option, four words, or a number that is missing or not positive. */
  lemma SetRefused(args: Command, m: Table, t: Times, info: bytes)
    requires |args| == 4 || |args| == 5
    requires args[0] == Ascii("SET")
    requires |args| == 5 ==>
      || (Upper(args[3]) != Ascii("EX") && Upper(args[3]) != Ascii("PX"))
      || LeadingNumber(args[4]).None? || LeadingNumber(args[4]).value <= 0
    ensures EffectOf(args, m, t) == m
    ensures ReplyTo(args, m, t, info) ==
      if |args| == 5 && (Upper(args[3]) == Ascii("EX") || Upper(args[3]) == Ascii("PX"))
      then Failure(Ascii("ERR ") + Ascii("invalid expire time in 'set' command"))
      else Failure(Ascii("ERR ") + Ascii("syntax error"))
  {
    hide Ascii, Registered, Upper, LeadingNumber;
    CommandTable();
    Known(args, SetCmd, m, t, info);
  }

  /**
   * EXPIRE n answers 1 if and only if the key is shown; then it shows the same value until exactly n seconds
   * after the command read the clock, and from then on nothing. Otherwise it answers 0 and changes nothing,
   * and no other key changes in any case.
   */
  lemma ExpireLaw(k: bytes, n: nat, m: Table, t: Times, info: bytes, x: bytes, now: int)
    requires 0 < n <= INT64_MAX
    ensures
      var args, shown, end := [Ascii("EXPIRE"), k, Decimal(n)], Shown(m, k, t.second), t.first + n * 1000;
      && ReplyTo(args, m, t, info) == Integer(if shown.Some? then 1 else 0)
      && Shown(EffectOf(args, m, t), x, now) ==
           if x != k || shown.None? then Shown(m, x, now)
           else if now < end then Some(Entry(shown.value.value, end))
           else None
  {
    hide Ascii, Registered, LeadingNumber;
    CommandTable();
    NumberOfDecimal(n);
    Known([Ascii("EXPIRE"), k, Decimal(n)], Expire, m, t, info);
  }

  lemma ExpireRefused(k: bytes, text: bytes, m: Table, t: Times, info: bytes)
    requires LeadingNumber(text).None? || LeadingNumber(text).value <= 0
    ensures
      var args := [Ascii("EXPIRE"), k, text];
      && ReplyTo(args, m, t, info) == Failure(Ascii("ERR ") + Ascii("value is not an integer or out of range"))
      && EffectOf(args, m, t) == m
  {
    hide Ascii, Registered, LeadingNumber;
    CommandTable();
    Known([Ascii("EXPIRE"), k, text], Expire, m, t, info);
  }

  /**
   * PERSIST answers 1 if and only if the key is shown with a deadline; then it shows the same value without
   * one, for ever. Otherwise it answers 0 and changes nothing.
   */
  lemma PersistLaw(k: bytes, m: Table, t: Times, info: bytes, x: bytes, now: int)
    ensures
      var args, shown := [Ascii("PERSIST"), k], Shown(m, k, t.first);
      var loses := shown.Some? && shown.value.deadline != -1;
      && ReplyTo(args, m, t, info) == Integer(if loses then 1 else 0)
      && Shown(EffectOf(args, m, t), x, now) ==
           if x == k && loses then Some(Entry(shown.value.value, -1)) else Shown(m, x, now)
  {
    hide Ascii, Registered;
    CommandTable();
    Known([Ascii("PERSIST"), k], Persist, m, t, info);
  }

  // DEL

  lemma {:induction false} WithoutIsRemoval(m: Table, keys: seq<bytes>)
    ensures Without(m, keys) == m - (set k | k in keys)
    decreases |keys|
  {
    if keys != [] {
      WithoutIsRemoval(m - {keys[0]}, keys[1..]);
      assert (set k | k in keys) == {keys[0]} + (set k | k in keys[1..]);
    }
  }

  lemma {:induction false} DelCountIsNumber(m: Table, keys: seq<bytes>)
    ensures DelCount(m, keys) == |set k | k in keys && k in m|
    decreases |keys|
  {
    if keys == [] {
      assert (set k | k in keys && k in m) == {};
    } else {
      var m', later := m - {keys[0]}, keys[1..];
      DelCountIsNumber(m', later);
      var rest := set k | k in later && k in m';
      if keys[0] in m {
        assert (set k | k in keys && k in m) == rest + {keys[0]};
      } else {
        assert (set k | k in keys && k in m) == rest;
      }
    }
  }

  /** DEL answers how many different keys of those named were stored; afterwards none of them is. */
  lemma DelLaw(keys: seq<bytes>, m: Table, t: Times, info: bytes)
    requires keys != []
    ensures
      var args := [Ascii("DEL")] + keys;
      && ReplyTo(args, m, t, info) == Integer(|set k | k in keys && k in m|)
      && EffectOf(args, m, t) == m - (set k | k in keys)
  {
    hide Ascii, Registered;
    CommandTable();
    var args := [Ascii("DEL")] + keys;
    assert args[1..] == keys;
    WithoutIsRemoval(m, keys);
    DelCountIsNumber(m, keys);
    Known(args, DelCmd, m, t, info);
  }

  /** DBSIZE answers how many keys GET would answer with a value. */
  lemma DbSizeLaw(m: Table, t: Times, info: bytes)
    ensures
      var seen := set k | k in m && ReplyTo([Ascii("GET"), k], m, t, info) != Nil;
      ReplyTo([Ascii("DBSIZE")], m, t, info) == Integer(|seen|)
  {
    hide Ascii, Registered, ReplyTo;
    CommandTable();
    Known([Ascii("DBSIZE")], DbSize, m, t, info);
    forall k
      ensures k in LiveKeys(m, t.first) <==> k in m && ReplyTo([Ascii("GET"), k], m, t, info) != Nil
    {
      GetLaw(k, m, t, info);
      AnswersMean(m, k, t.first);
    }
    assert LiveKeys(m, t.first) == set k | k in m && ReplyTo([Ascii("GET"), k], m, t, info) != Nil;
  }

  /** PING and COMMAND, and no words at all. */
  lemma OtherReplies(word: bytes, m: Table, t: Times, info: bytes)
    ensures ReplyTo([Ascii("PING")], m, t, info) == Simple(Ascii("PONG"))
    ensures ReplyTo([Ascii("PING"), word], m, t, info) == Bulk(word)
    ensures ReplyTo([Ascii("COMMAND")], m, t, info) == EmptyArray
    ensures ReplyTo([], m, t, info) == Failure(Ascii("ERR ") + Ascii("empty command"))
  {
    hide Ascii, Registered;
    CommandTable();
    Known([Ascii("PING")], Ping, m, t, info);
    Known([Ascii("PING"), word], Ping, m, t, info);
    Known([Ascii("COMMAND")], CommandCmd, m, t, info);
  }

  /** Everything else is refused, with its name and its first argument echoed. */
  lemma UnknownReply(args: Command, m: Table, t: Times, info: bytes)
    requires args != [] && Registered(args[0]).None?
    ensures EffectOf(args, m, t) == m
    ensures
      var echo := if |args| == 1 then [] else Ascii("'") + args[1] + Ascii("'");
      ReplyTo(args, m, t, info) == Failure(
        Ascii("ERR ") + (Ascii("unknown command '") + args[0] + Ascii("', with args beginning with: ") + echo))
  {
    hide Ascii, Registered;
  }

  // ---- commands together ----

  /** What GET and TTL answer after a SET with EX: the value and the seconds left, until exactly the deadline. */
  lemma AfterSetEx(k: bytes, v: bytes, n: nat, m: Table, t: Times, u: Times, info: bytes)
    requires 0 < n <= INT64_MAX && t.first <= u.first
    ensures
      var after, left := EffectOf([Ascii("SET"), k, v, Ascii("EX"), Decimal(n)], m, t), t.first + n * 1000 - u.first;
      && ReplyTo([Ascii("GET"), k], after, u, info) == (if left > 0 then Bulk(v) else Nil)
      && ReplyTo([Ascii("TTL"), k], after, u, info) == Integer(if left > 0 then left / 1000 else -2)
      && (u.first == t.first ==> ReplyTo([Ascii("TTL"), k], after, u, info) == Integer(n))
  {
    assert Upper(Ascii("EX")) == Ascii("EX");
    hide Ascii, Upper, ReplyTo, EffectOf;
    SetExLaw(k, v, Ascii("EX"), n, m, t, info, k, u.first);
    var after := EffectOf([Ascii("SET"), k, v, Ascii("EX"), Decimal(n)], m, t);
    GetLaw(k, after, u, info);
    TtlLaw(k, after, u, info);
  }

  /** After SET the key has no deadline, and after DEL it is gone. */
  lemma AfterSetAndDel(k: bytes, v: bytes, m: Table, t: Times, u: Times, info: bytes)
    ensures
      var after := EffectOf([Ascii("SET"), k, v], m, t);
      && ReplyTo([Ascii("GET"), k], after, u, info) == Bulk(v)
      && ReplyTo([Ascii("TTL"), k], after, u, info) == Integer(-1)
    ensures
      var after := EffectOf([Ascii("DEL"), k], m, t);
      && ReplyTo([Ascii("GET"), k], after, u, info) == Nil
      && ReplyTo([Ascii("TTL"), k], after, u, info) == Integer(-2)
  {
    hide Ascii, ReplyTo, EffectOf;
    SetLaw(k, v, m, t, info, k, u.first);
    DelLaw([k], m, t, info);
    assert [Ascii("DEL")] + [k] == [Ascii("DEL"), k];
    GetLaw(k, EffectOf([Ascii("SET"), k, v], m, t), u, info);
    TtlLaw(k, EffectOf([Ascii("SET"), k, v], m, t), u, info);
    GetLaw(k, EffectOf([Ascii("DEL"), k], m, t), u, info);
    TtlLaw(k, EffectOf([Ascii("DEL"), k], m, t), u, info);
  }

  /** Names may be sent in either case of letters. */
  lemma NamesInAnyCase(rest: Command)
    ensures Normalized([Ascii("get")] + rest) == [Ascii("GET")] + rest
    ensures Normalized([Ascii("Set")] + rest) == [Ascii("SET")] + rest
  {
    assert Upper(Ascii("get")) == Ascii("GET") && Upper(Ascii("Set")) == Ascii("SET");
  }
}
