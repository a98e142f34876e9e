# redis_cpp in Dafny

A model of redis_cpp, a small Redis-compatible server in C++, with proofs about its three cores and about
the server as a whole:

* **RESP framing** (`RespParser`, `RespLaws`, `InlineCommands`, `Framing`, `Pipelines`, `Replies`,
  `ReplyStreams`): the incremental request parser, the encoders, the frame extraction of a connection, and
  what a client decodes from the replies.
* **What a client can rely on, in its own words** (`CommandLaws`, `FileLaws`): the command table, replies as bytes,
  laws that tie commands to what GET and TTL answer, and the file as the commands it holds.
* **The per-connection actor protocol** (`Reactor`, `ReactorViews`, `ReactorSafety`, `ReactorTheorems`,
  `EventLoop`): reactor thread, worker pool, the two queues between them, the wakeup pipe and the
  generation guard, as a transition system over every interleaving; and the reactor's handlers as
  imperative code, each proved to be a run of that system.
* **The sharded store with expiry and its append-only file** (`Shards`, `StoreRuns`, `ExpiryLaws`,
  `Linearization`, `Operations`, `Aof`, `AofLaws`, `Recovery`, `Restarts`, `KvStore`, `Commands`, `Dispatcher`):
  writers, readers and the expiry thread under every interleaving, the file at byte level including files cut
  at any byte, a server's lives from restart to restart, and the store object with its commands, each proved to
  be a run of the concurrent store.

`EndToEnd` and `OneStore` join the cores. `ByteStrings` and `Sequences` hold decimal numerals and the one lemma library
about concatenation. `dafny verify dfyconfig.toml` checks everything.

## How it is modelled

* Loops of the source are methods with loops; objects whose methods change fields are classes
  (`KvStore.Store`, `Aof.AofWriter`, `EventLoop.SendBuffer`, `EventLoop.Loop`). Each is proved against a
  function, and the laws are proved about the functions.
* Threads are transition systems. A label is one critical section, one pipe operation or one stretch of
  code on state only its own thread touches. A run is any sequence of enabled labels.
* The clock is an explicit integer that never goes back. `write` may take any number of bytes, block or
  fail; a read event may bring any bytes. The reactor's theorems hold for whatever bytes a worker replies;
  `EndToEnd` is about workers that reply what dispatch answers.
* The store machine's log holds the records of the current life. The file is what the life before left,
  followed by that log.
* Generations are numbered from 0 in the model and from 1 in the code; the generation counter and the other
  counters do not wrap.
* A connection keeps its record after it is closed. The fields `received`, `accepted`, `done` and `sent`
  are history that no step reads.

## What the proofs found

* **A prolonged key is lost** (`Recovery.ProlongedKeyIsLost`): `SET k v EX 10`, then `EXPIRE k 1000`, then a
  restart after the first ten seconds. Replay skips the expired `SET PXAT`, so the `PEXPIREAT` behind it
  finds nothing.
* **An overwritten value returns** (`Recovery.OverwrittenValueReturns`): `SET k old`, then `SET k new EX 10`,
  then a restart after ten seconds. Replay skips the expired record and the old value is visible again.
  `Recovery.RecoveryIsExact` gives the exact condition on a key's records under which replay is right.
* **From then on the server and its file disagree** (`Restarts.SecondRestartAgrees`): the restarted server
  shows the old value, the ideal meaning of its file does not, and the next restart sides with the server.
* **A deadline that passes while the replay runs changes the outcome** (`Recovery.DeadlineDuringReplay`): each
  callback reads the clock for itself. `Recovery.ReadingsAgreeExactly` compares any two readings of one log (the
  ideal meaning, a server's, a replay's) and gives the exact condition on a key's records under which they agree;
  the theorems about restarts are its instances.
* **A line ended by a bare LF depends on what follows it** (`RespLaws.CompleteIsFinal`,
  `Framing.CutsAgreeExactlyWhenClean`): these are the only frames whose reading depends on how the stream
  was cut.
* **`del` answers for expired entries** that are still stored (`ExpiryLaws.DelAnswersForTheVisible`), unlike
  every other operation.
* **An unknown command whose name or first argument holds CR LF breaks the reply stream**
  (`ReplyStreams.EchoBreaksTheStream`); every other reply is one RESP value
  (`ReplyStreams.DispatchStreamDecodes`).
* **`PX n` may expire a key early** (`Commands.PxRoundsUpExactly`, `Commands.PxCutsShort`): it is rounded down to
  seconds with a minimum of 1, where the comment at src/commands/CommandDispatcher.cpp:74 says "round up".
* **A complete frame may hold no command** (`InlineCommands.CompleteHoldsOneCommand`,
  `InlineCommands.BlankLineHoldsNone`): a blank inline line, where src/protocol/RespParser.hpp:27 says that
  COMPLETE appends one.

## Model

| member | source | states |
|---|---|---|
| RespParser.CrlfAt | src/protocol/RespParser.cpp:16-20 | the index found is a CR LF at or after the start, and no earlier index is; without a result there is none |
| RespParser.FindCrlf | src/protocol/RespParser.cpp:16-20 | the scanning loop finds exactly that index |
| RespParser.ReadInteger | src/protocol/RespParser.cpp:22-33 | the number of a line and the position behind it; a missing line end and a malformed number are the same failure |
| RespParser.ReadArg | src/protocol/RespParser.cpp:77-91 | one turn of the argument loop with its error and incomplete cases; the two bytes behind an argument are skipped unread |
| RespParser.RunArgs | src/protocol/RespParser.cpp:73-96 | the argument loop computes the recursive reading of the arguments |
| RespParser.RunMultibulk | src/protocol/RespParser.cpp:56-97 | a '*' frame: ERROR on a negative count, an empty command on 0, else the arguments |
| RespParser.ReadQuoted | src/protocol/RespParser.cpp:130-147 | the quoted-token loop with its escapes and an optional closing quote |
| RespParser.Tokenize | src/protocol/RespParser.cpp:121-155 | the nested token loops end and compute the tokens of a line |
| RespParser.RunInline | src/protocol/RespParser.cpp:103-163 | an inline line, CR LF first and bare LF second; blank lines give no command, names come out in upper case |
| RespParser.RunParse | src/protocol/RespParser.cpp:39-50 | the dispatcher; a COMPLETE verdict consumes at least 1 byte and no more than there are |
| RespLaws.ArgsAreStable | src/protocol/RespParser.cpp:76-92 | a decided argument loop decides the same with more bytes behind it |
| RespLaws.MultibulkIsStable | src/protocol/RespParser.cpp:56-97 | COMPLETE and ERROR on a '*' frame never change when bytes are appended |
| RespLaws.LineIsStable | src/protocol/RespParser.cpp:108-119 | nor does the verdict on a line ended by CR LF |
| RespLaws.CrlfOvertakesLf | src/protocol/RespParser.cpp:108-117 | a line taken for its bare LF is read differently once CR LF is appended |
| RespLaws.CompleteIsFinal | src/protocol/RespParser.cpp:39-163 | a COMPLETE verdict stands under every continuation if and only if the frame starts with '*' or holds CR LF |
| RespLaws.EncodeArray | src/protocol/RespParser.cpp:200-205 | the appending loop builds header and bulk strings in order |
| RespLaws.RoundTrip | src/protocol/RespParser.cpp:56-97 | parsing an encoded command, of any bytes and with anything behind it, gives it back and consumes exactly its length |
| RespLaws.StrictPrefixIsIncomplete | src/protocol/RespParser.cpp:56-97 | every strict prefix of an encoded command is INCOMPLETE |
| RespLaws.ArrayIsSelfDelimiting | src/protocol/RespParser.cpp:191-205 | equal byte streams that start with encoded commands start with the same command |
| RespLaws.TrailersAreNotRead | src/protocol/RespParser.cpp:85-92 | whatever the two bytes behind each argument are, the frame is complete with its arguments |
| RespLaws.BrokenFrames | src/protocol/RespParser.cpp:66-86 | after any whole arguments nothing is INCOMPLETE, a byte that is no '$' and a negative length are ERROR, and so is a negative count |
| RespLaws.MalformedCountWaits | src/protocol/RespParser.cpp:22-33 | a count that is no number is INCOMPLETE |
| ByteStrings.LargestNumbers | src/protocol/RespParser.cpp:22-33 | numbers go up to the largest 64-bit one, and one more is none |
| InlineCommands.QuotedOfEscape | src/protocol/RespParser.cpp:133-147 | the quoted-token loop undoes escaping of arbitrary bytes |
| InlineCommands.TokensOfQuoteLine | src/protocol/RespParser.cpp:121-155 | a line of quoted arguments is tokenised into those arguments |
| InlineCommands.InlineInvertsQuoting | src/protocol/RespParser.cpp:103-163 | every non-empty argument list of arbitrary bytes survives as a quoted inline command, only its name in upper case |
| InlineCommands.TokensOfWords | src/protocol/RespParser.cpp:121-155 | words, quoted or plain, with any blanks around them, are tokenised into their arguments |
| InlineCommands.InlineOfWords | src/protocol/RespParser.cpp:103-163 | a line of such words is the command of their arguments, its name in upper case, and exactly the line is consumed |
| InlineCommands.BareLineOfWords | src/protocol/RespParser.cpp:110-117 | so is one ended by a bare LF, while no CR LF has arrived |
| InlineCommands.PlainCommand | src/protocol/RespParser.cpp:149-153 | in particular plain arguments with single spaces between them |
| InlineCommands.UnclosedQuote | src/protocol/RespParser.cpp:131-147 | a quote that is never closed runs to the end of the line |
| InlineCommands.BackslashReads | src/protocol/RespParser.cpp:134-142 | which bytes the escapes stand for |
| InlineCommands.BlankBytes | src/protocol/RespParser.cpp:124-126 | the blanks are space and tab |
| InlineCommands.UpperLetters | src/protocol/RespParser.cpp:158-160 | names go to upper case letter by letter |
| InlineCommands.CompleteHoldsOneCommand | src/protocol/RespParser.cpp:39-163 | a complete frame holds at most one command, and one if and only if it is a multibulk frame or its line has a byte that is no blank |
| InlineCommands.BlankLineHoldsNone | src/protocol/RespParser.cpp:157-162 | a blank line is complete and holds none |
| Framing.ExtractConserves | src/net/EpollReactor.cpp:474-504 | without a parse error the consumed frames followed by the kept bytes are the old buffer |
| Framing.RestIsSettled | src/net/EpollReactor.cpp:481-497 | the kept bytes hold no complete frame |
| Framing.ExtractFrames | src/net/EpollReactor.cpp:474-504 | the extraction loop yields the commands of the successive parses in order and the remaining bytes, or reports the parse error |
| Framing.PrefixVerdictStands | src/protocol/RespParser.cpp:39-163 | on a clean stream a decided prefix is decided the same way in the whole stream |
| Framing.CleanSplitAgrees | src/net/EpollReactor.cpp:474-504 | on a clean stream extraction from a first part and then from its rest with the second part is extraction from the whole |
| Framing.ChunkIndependence | src/net/EpollReactor.cpp:291-342 | any cutting of a clean stream into read events queues the commands of one read and keeps the same bytes, and is closed for a parse error only if the one read would be; the size guard closes it if and only if some read event brings more than fits beside the bytes kept before it |
| Framing.OverflowIsLong | src/net/EpollReactor.cpp:309-312 | only a client that sends more than the limit can be struck by the guard |
| Framing.FrameSuffices | src/protocol/RespParser.cpp:56-119 | a complete frame is decided by its own bytes |
| Framing.CutsAgreeExactlyWhenClean | src/net/EpollReactor.cpp:474-504 | a stream without parse error reads the same at every cut if and only if no inline line holds a bare LF before the CR LF that ends it |
| Pipelines.ParseOfWire | src/protocol/RespParser.cpp:39-163 | a multibulk, quoted or typed inline request parses to its one command whatever follows |
| Pipelines.PipelineExtracts | src/net/EpollReactor.cpp:474-504 | a pipeline of requests is a clean stream and is extracted completely, in order |
| Pipelines.PipelineInAnyPieces | src/net/EpollReactor.cpp:291-342 | delivered in any pieces, a pipeline is queued as exactly its commands with nothing left over, unless some read event overflows, and then the connection is closed |
| Pipelines.PipelineWithinLimit | src/net/EpollReactor.cpp:309-312 | a pipeline of no more bytes than the limit is never closed, in whatever pieces it comes |
| ReactorViews.DispatchKeeps | src/net/EpollReactor.cpp:440-451 | moving the head of an idle connection's queue to the pool keeps order and single flight |
| ReactorViews.BufferKeeps | src/net/EpollReactor.cpp:406-411 | moving the oldest pending bytes into the send buffer keeps the order of all reply bytes |
| ReactorViews.FlushKeeps | src/net/Connection.hpp:66-84 | a partial flush keeps the order of all reply bytes |
| ReactorViews.AckKeeps | src/net/EpollReactor.cpp:429-433 | an acknowledged completion leaves no token of that connection |
| ReactorViews.TakeKeeps | src/ThreadPool.hpp:62-74 | a worker taking the task keeps the connection's command order |
| ReactorViews.ExecuteKeeps | src/net/EpollReactor.cpp:447-450 | executing the taken command extends the history by that command and its reply, in order |
| ReactorViews.PushWriteKeeps | src/net/EpollReactor.cpp:380-388 | pushing the reply keeps the order of all reply bytes |
| ReactorSafety.StepKeepsShape | src/net/EpollReactor.cpp:246-451 | every step keeps the descriptor table equal to the open connections, and every queued item tagged with its connection's own descriptor |
| ReactorSafety.ReadGood | src/net/EpollReactor.cpp:291-342 | a read event keeps the invariant of every connection, with its close, queue and dispatch branches |
| ReactorSafety.WriteGood | src/net/EpollReactor.cpp:348-360 | a writable event keeps it, drained, blocked or failed |
| ReactorSafety.CloseGood | src/net/EpollReactor.cpp:366-374 | closing keeps it, with work of that connection still in flight |
| ReactorSafety.DeliverGood | src/net/EpollReactor.cpp:406-419 | delivering one write keeps it, also when its connection is gone |
| ReactorSafety.AcknowledgeGood | src/net/EpollReactor.cpp:429-437 | processing one completion keeps it, also when it overtakes its own reply |
| ReactorSafety.StepKeepsInv | src/net/EpollReactor.cpp:246-451 | every action of every thread keeps the whole invariant |
| ReactorSafety.RunKeepsInv | src/net/EpollReactor.cpp:133-451 | so does every run |
| ReactorTheorems.ClientSeesOrderedReplies | src/net/EpollReactor.cpp:380-451 | in every run the bytes a client got are a prefix of the replies in execution order, and the executed commands a prefix of the accepted ones |
| ReactorTheorems.AcceptedIsWhatWasSent | src/net/EpollReactor.cpp:327-337 | in every run the accepted commands are the non-empty commands of the received bytes read in one piece |
| ReactorTheorems.PipelinedClient | src/net/EpollReactor.cpp:291-451 | a pipelining client has its requests accepted in order and sees a prefix of their replies in order |
| ReactorTheorems.OneCommandInFlight | src/net/EpollReactor.cpp:333-341 | in every run `processing` is set exactly when one token of the generation exists anywhere, never two; an idle connection has an empty queue |
| ReactorTheorems.ClosedStaysClosed | src/net/EpollReactor.cpp:280-281 | after a close no continuation, with reuse of the descriptor, changes the old connection's buffers, flags or sent bytes |
| ReactorTheorems.StaleIsIgnored | src/net/EpollReactor.cpp:406-408 | a write or completion acts on no connection but that of its generation, and on that only while it is open |
| ReactorTheorems.StepKeepsAnnounced | src/net/EpollReactor.cpp:166-196 | every step keeps a filled queue announced by the pipe, by a worker about to write to it, or by the reactor being past its drain |
| ReactorTheorems.NoLostWakeup | src/net/EpollReactor.cpp:380-397 | the reactor never waits on an empty pipe while a queue is filled, unless the worker that filled it has yet to write to the pipe; dropped pipe writes included |
| ReactorTheorems.SleepsOnlyWhenDone | src/net/EpollReactor.cpp:399-451 | whenever the server sleeps, every accepted command of every open connection is executed and its replies are sent, or buffered with EPOLLOUT armed |
| ReactorTheorems.StepWork | src/net/EpollReactor.cpp:399-451 | each internal step strictly decreases a measure that nothing but new input increases |
| ReactorTheorems.WorkIsBounded | src/ThreadPool.hpp:62-74 | without new input a run does at most that many steps of work |
| ReactorTheorems.CanAlwaysFinish | src/net/EpollReactor.cpp:133-237 | from every state of the right shape the server can come to sleep without input |
| ReactorTheorems.ReadIsExact | src/net/EpollReactor.cpp:291-342 | a read event leaves the connection open if and only if no more than 65536 bytes wait and they hold no parse error; then it keeps the incomplete rest and accepts the commands before it, else the descriptor is free |
| ReactorTheorems.WritableIsExact | src/net/EpollReactor.cpp:348-360 | what the kernel takes is sent; the connection stays open if and only if nothing is left or the socket did not fail, and stays armed exactly for what is left |
| ReactorTheorems.DeliverIsExact | src/net/EpollReactor.cpp:406-419 | the same for a write that reaches its connection |
| EventLoop.SendBuffer.Enqueue | src/net/Connection.hpp:52-62 | data is appended behind what is unsent |
| EventLoop.SendBuffer.Flush | src/net/Connection.hpp:66-84 | for every behaviour of the kernel exactly the bytes it took are gone from the front and the rest stays; 0 means that none is left, 1 that the kernel would block, -1 that it failed |
| EventLoop.Loop.FlushConn | src/net/EpollReactor.cpp:413 | flushing a connection's own send buffer is the model's flush by the bytes the kernel took; it fails exactly if the kernel did, with bytes left |
| EventLoop.Loop.HandleAccept | src/net/EpollReactor.cpp:280-281 | is the accept step |
| EventLoop.Loop.HandleRead | src/net/EpollReactor.cpp:291-342 | is the read step, or nothing on an unknown descriptor |
| EventLoop.Loop.HandleWrite | src/net/EpollReactor.cpp:348-360 | is the writable step |
| EventLoop.Loop.HandleClose | src/net/EpollReactor.cpp:366-374 | is the close action, or nothing on an unknown descriptor |
| EventLoop.Loop.DispatchNextCommand | src/net/EpollReactor.cpp:440-451 | is the dispatch action |
| EventLoop.Loop.Enqueueable | src/net/EpollReactor.cpp:333-337 | the queueing loop keeps the non-empty commands in order |
| EventLoop.Loop.Send | src/net/EpollReactor.cpp:380-388 | is the worker's push of its reply |
| EventLoop.Loop.NotifyCommandComplete | src/net/EpollReactor.cpp:390-397 | is the worker's push of its completion |
| EventLoop.Loop.DeliverOne | src/net/EpollReactor.cpp:406-419 | one write reaches only the live connection of its generation |
| EventLoop.Loop.ProcessPendingWrites | src/net/EpollReactor.cpp:399-420 | swapping the queue out and delivering it is a run of swap, deliver and done steps |
| EventLoop.Loop.CompleteOne | src/net/EpollReactor.cpp:429-437 | one completion reaches only the live connection of its generation |
| EventLoop.Loop.ProcessCompletedCommands | src/net/EpollReactor.cpp:422-438 | swapping the queue out and working it off is a run of swap, acknowledge and done steps |
| EndToEnd.OneReplyPerRequest | src/net/EpollReactor.cpp:133-504 | whatever store each command finds: whenever the server sleeps and a client's buffer is empty, the client decodes exactly one value per request, in order, nothing left over, each a reply to its own request |
| OneStore.DoneIsShare | src/ThreadPool.hpp:62-74 | what each connection has executed is its share of one order of execution, in that order |
| OneStore.EffectSeesTheVisible | src/commands/CommandDispatcher.cpp:29-223 | a command does the same to two maps that look the same |
| OneStore.ReplySeesTheVisible | src/commands/CommandDispatcher.cpp:29-223 | and answers the same, unless it is DEL |
| OneStore.WorkServes | src/main.cpp:153-160 | what `on_message` promises about the store object is all that the whole-server theorems ask of an execution |
| OneStore.RepliesOfOneStore | src/net/EpollReactor.cpp:133-504 | all clients on one store: whenever the server sleeps, each client whose buffer is empty decodes one value per request, the reply on a map that looks like the one all commands executed before have made, in one order for all clients that keeps each client's own |
| OneStore.AloneOnOneMap | src/net/EpollReactor.cpp:133-504 | a client alone decodes the replies on one map that its own requests have changed one after the other |
| OneStore.ReadsItsOwnWrites | src/net/EpollReactor.cpp:133-504 | so `GET k` right after `SET k v` decodes as v |
| Aof.AofWriter.WriteResp | src/store/AofWriter.cpp:88-93 | appends when the file is open, else nothing |
| Aof.AofWriter.Append | src/store/AofWriter.cpp:54-82 | the bytes of one record go to the end of the file |
| Aof.Replay | src/store/AofWriter.cpp:137-219 | the replay loop makes the calls of its turns in order and counts them; a negative argument count ends it abnormally |
| AofLaws.EncodeIsArray | src/store/AofWriter.cpp:50-82 | each record is the multibulk encoding of its arguments |
| AofLaws.InterpretOfArgs | src/store/AofWriter.cpp:196-214 | the arguments of a record invoke its own callback with its own deadline; a deadline that is not positive invokes none |
| AofLaws.BulkWhole | src/store/AofWriter.cpp:157-174 | a whole bulk string is read and the stream is behind it |
| AofLaws.BulkNearlyWhole | src/store/AofWriter.cpp:157-174 | one that lacks at most its CR LF is read and ends the stream |
| AofLaws.BulkCut | src/store/AofWriter.cpp:157-174 | one cut any earlier is not read |
| AofLaws.ArgsCut | src/store/AofWriter.cpp:186-194 | cut arguments are read if and only if nothing but the last CR LF is touched |
| AofLaws.TurnCut | src/store/AofWriter.cpp:176-215 | a record cut anywhere takes effect whole or not at all |
| AofLaws.SurvivorsIsLongest | src/store/AofWriter.cpp:176-215 | the surviving records are the longest prefix of the log that fits the cut file, its last CR LF excepted |
| AofLaws.ReplayOfCut | src/store/AofWriter.cpp:137-219 | for every log and every cut, replay ends normally and makes exactly the calls of the surviving records, in order |
| AofLaws.ReplayOfLog | src/store/AofWriter.cpp:137-219 | replaying the whole file gives back the log |
| FileLaws.RecordIsCommand | src/store/AofWriter.cpp:54-82 | each record is the multibulk frame of these words: SET key value, SET key value PXAT deadline, DEL key, PEXPIREAT key deadline |
| FileLaws.SetByteByByte | src/store/AofWriter.cpp:50-57 | the bytes of one of them |
| FileLaws.RecordParses | src/store/AofWriter.cpp:54-82 | the request parser reads each record as those words |
| FileLaws.InterpretIsExact | src/store/AofWriter.cpp:196-214 | which words make the reader call which callback, with what, and that no others do |
| FileLaws.FileActsAsCommand | src/main.cpp:108-119 | a file that holds a SET or DEL as a client sends it does at start-up what that command does |
| FileLaws.FileKeepsDeadline | src/main.cpp:111-128 | one that holds a deadline ahead shows the key until exactly then |
| FileLaws.FileDropsPassed | src/main.cpp:111-125 | one that holds a passed deadline is skipped, or deletes the key |
| FileLaws.NumberInText | src/store/AofWriter.cpp:164-204 | numbers may have blanks and a plus before them and text behind them |
| FileLaws.StrangeFirstLines | src/store/AofWriter.cpp:176-194 | a negative count ends the process; a count of 0 or another line ends the replay |
| FileLaws.StrangeLengths | src/store/AofWriter.cpp:157-166 | a negative length reads as the empty string; a line that is no length is not read |
| FileLaws.BlankLineIsSkipped | src/store/AofWriter.cpp:180 | a blank line is skipped |
| Shards.ComputeShardIndex | src/store/KvStore.cpp:27-32 | the accumulating 64-bit loop computes the masked hash |
| Shards.MaskIsModulo | src/store/KvStore.cpp:31-47 | for every count the constructor accepts, masking is taking the remainder |
| Shards.IndexInRange | src/store/KvStore.cpp:27-36 | so the index is in range |
| Shards.OnlyPowersPass | src/store/KvStore.cpp:45-47 | the constructor's test passes the powers of two and nothing else |
| Shards.HashBegins | src/store/KvStore.cpp:27-32 | the hash starts at 5381 and multiplies by 33 |
| Shards.HashWraps | src/store/KvStore.cpp:27-32 | and wraps around at 64 bits |
| Shards.FindIsLookup | src/store/KvStore.cpp:111-117 | a lookup in the key's shard is a lookup in one single map |
| Shards.PutIsUpdate | src/store/KvStore.cpp:64-70 | a store in the key's shard is an update of the single map, and every key stays in its own shard |
| Shards.EraseIsRemoval | src/store/KvStore.cpp:144-146 | an erase in the key's shard is a removal from the single map |
| Shards.Count | src/store/KvStore.cpp:267-278 | the sum over the shards is the number of live keys of the single map |
| StoreRuns.VisibleStays | src/store/KvStore.cpp:115-117 | maps that look the same now look the same at every later time |
| StoreRuns.DropIsInvisible | src/store/KvStore.cpp:120-131 | the recheck under the exclusive lock removes only an expired entry, and no key looks different |
| StoreRuns.StepCommits | src/store/KvStore.cpp:76-222 | a step puts at most one record into effect, behind those in effect already, whether its writer logs before it writes or after |
| StoreRuns.OnlyWritersAreSeen | src/store/KvStore.cpp:105-261 | no step but one that commits a record changes how any key looks: a live entry is never removed behind a client's back, not by get, by the expiry thread, nor by a refused expire or persist |
| StoreRuns.StepFollows | src/store/KvStore.cpp:61-261 | every step of every thread, also in the middle of a write, keeps a key looking as the committed records say |
| StoreRuns.ShardsFollowTheLog | src/store/KvStore.cpp:76-261 | from any start of life, in every run, whenever the mutation mutex is free: the log of this life, folded onto what the server came up with, shows every key as the shards do, value and deadline, from now on |
| ExpiryLaws.StepKeepsCovered | src/store/KvStore.cpp:61-261 | every step keeps each entry with a deadline on the heap, with its writer or with the expiry thread |
| ExpiryLaws.StartCovered | src/main.cpp:98-132 | a server that comes up with its deadlines on the heap has every entry covered |
| ExpiryLaws.NoEntryEscapes | src/store/TtlManager.cpp:33-81 | from any start with its deadlines on the heap, the replayed one included, in every run no entry with a deadline escapes the expiry thread |
| ExpiryLaws.CaughtUpMeansSwept | src/store/TtlManager.cpp:70-81 | in such a run, when the heap lies ahead and nobody is in between, no passed deadline is left in any shard |
| ExpiryLaws.WritersTouchTheirKey | src/store/KvStore.cpp:61-222 | a writer changes no key but that of the record it commits |
| ExpiryLaws.ShownMeans | src/store/KvStore.cpp:115-117 | an entry is shown exactly while it has no deadline or one that lies ahead |
| ExpiryLaws.AnswersMean | src/store/KvStore.cpp:105-278 | get answers the value shown, ttl its full seconds left, expire that one is shown, persist that it has a deadline, count how many keys show one |
| ExpiryLaws.AnswersSeeOnlyTheVisible | src/store/KvStore.cpp:105-278 | get, ttl, expire, persist and count answer the same whether or not expired entries were removed |
| ExpiryLaws.DelAnswersForTheVisible | src/store/KvStore.cpp:139-147 | del agrees with what get answers if and only if no expired entry is stored under the key |
| ExpiryLaws.DelSeesTheExpired | src/store/KvStore.cpp:146 | two stores that look the same on which del answers differently |
| Linearization.StepIsAtomic | src/store/KvStore.cpp:76-222 | each step changes the one map by the whole operation whose moment it is, or not at all |
| Linearization.AnswerIsAtomic | src/store/KvStore.cpp:105-242 | get, ttl, expire and persist return what the one map answers at that moment; a get that found an expired entry is bound to return nothing |
| Linearization.DelAnswersForTheStored | src/store/KvStore.cpp:139-147 | under any interleaving del says yes for a key the one map shows, and for another exactly when an expired entry is still stored |
| Linearization.EveryAnswerHasItsMoment | src/store/KvStore.cpp:76-261 | in every run from any start of life each answer is that of the one map at a moment within its operation, and the one map changes only by whole operations |
| Operations.SetExWorks | src/store/KvStore.cpp:61-99 | the critical sections of the set family with deadline, one after the other, make this change, this schedule and this record |
| Operations.ExpireWorks | src/store/KvStore.cpp:153-200 | the same for expire and expire_at, refused or not |
| Operations.PersistWorks | src/store/KvStore.cpp:202-222 | the same for persist |
| Operations.GetWorks | src/store/KvStore.cpp:105-133 | the two halves of get at two times |
| Operations.PopWorks | src/store/TtlManager.cpp:70-81 | one turn of the drain loop |
| Recovery.FoldIsEpochReading | src/store/AofWriter.cpp:54-82 | a log read at the epoch means what it says: the ideal meaning is a reading like any other |
| Recovery.StoryReads | src/main.cpp:106-129 | what two readings leave of a key depends only on its story: the last record both took alike, and the later ones they took differently |
| Recovery.ReadingsAgreeExactly | src/main.cpp:106-129 | for every log, key and time and all clock readings of either, an earlier and a later reading show the key alike, value and deadline, if and only if its story agrees |
| Recovery.RecoveryIsExact | src/main.cpp:106-129 | for every log and key, and whatever each callback reads from the clock, replay shows the key as the log means it, value and deadline, if and only if the key's story agrees |
| Recovery.OneReadingIsExact | src/main.cpp:111-123 | a replay that reads the clock in every callback shows a key as one at a single time after it does, if and only if the story of the two readings agrees |
| Recovery.UndisturbedRecovers | src/main.cpp:106-129 | a replay at one time recovers every key after whose base record no SET PXAT has expired and no expired PEXPIREAT is followed by a last one that lies ahead |
| Recovery.EarlyRestartRecovers | src/main.cpp:106-129 | a replay that is over before any logged deadline has passed rebuilds exactly what the log means |
| Recovery.ProlongedKeyIsLost | src/main.cpp:113-127 | a key prolonged after SET PXAT is lost by a restart after its first deadline |
| Recovery.OverwrittenValueReturns | src/main.cpp:113 | an older value returns when the newer one has expired before the restart |
| Recovery.DeadlineDuringReplay | src/main.cpp:112-113 | a log and clock readings on which a replay and one at a single later time differ |
| Restarts.FreshServer | src/main.cpp:98-101 | a server without a file has come up by the replay of nothing |
| Restarts.ShardsFollowTheFile | src/store/KvStore.cpp:76-261 | in every life and for every key, recovered or not, the shards show what the records of this life make, at face value, of what the replay made of those before |
| Restarts.LogIsFaithful | src/store/KvStore.cpp:76-261 | in every run of every life and for every key, whenever the mutation mutex is free, the meaning of the whole file shows the key as the shards do, value and deadline, if and only if its story agrees |
| Restarts.RecoveredStaysFaithful | src/store/KvStore.cpp:76-261 | in particular a key recovered at the start of a life stays faithful through it, from now on |
| Restarts.RunLogsPositive | src/store/KvStore.cpp:83-177 | a server that asks for deadlines after the epoch logs only such deadlines |
| Restarts.SweepsAreUnseen | src/main.cpp:98-129 | the expiry thread, already running beside the replay, makes no difference to how any key looks in the end |
| Restarts.RestartIsExact | src/main.cpp:98-132 | from any run of any life, through the bytes of the file, to the restarted store, whatever the two replays read from the clock: every key is shown as the old shards would show it if and only if its story agrees |
| Restarts.LoggedMoment | src/store/KvStore.cpp:76-222 | every prefix of the log was, at some moment of the run, exactly what was in effect; a record logged but not yet written is so right after the run |
| Restarts.CrashIsExact | src/main.cpp:98-132 | stopped anywhere and cut at any byte of this life, the file brings back the store of a moment of the run: every key is shown as the shards of that moment would if and only if its story up to there agrees |
| Restarts.SecondRestartAgrees | src/main.cpp:113 | a restarted server that shows an older value against its file, and a second restart that agrees with the server although it does not recover the key from the file |
| KvStore.Create | src/store/KvStore.cpp:42-53 | exactly the powers of two are accepted |
| KvStore.Store.SetInternal | src/store/KvStore.cpp:61-74 | one key of the single map changes, and a positive deadline is scheduled |
| KvStore.Store.Set | src/store/KvStore.cpp:76-81 | the key has the value without deadline, SET goes to the file, and it is a run of the concurrent store that logs it |
| KvStore.Store.SetEx | src/store/KvStore.cpp:83-92 | refused for a TTL that is not positive, else the deadline is the clock plus the TTL, in the file and on the heap; a run of the concurrent store |
| KvStore.Store.SetAbsolute | src/store/KvStore.cpp:94-99 | the key has value and deadline, in the file and on the heap; a run of the concurrent store |
| KvStore.Store.Get | src/store/KvStore.cpp:105-133 | returns the value of the entry shown at the first clock reading, if one is, and removes an entry it found expired, which no key's look shows; a run of the concurrent store between its two readings |
| KvStore.Store.Delete | src/store/KvStore.cpp:139-147 | the key is gone, DEL goes to the file, the answer says whether an entry was stored; a run of the concurrent store |
| KvStore.Store.Expire | src/store/KvStore.cpp:153-177 | succeeds exactly on a live key with a positive TTL, then deadline, file and heap agree; else nothing visible changes; a run of the concurrent store between its two readings |
| KvStore.Store.ExpireAt | src/store/KvStore.cpp:179-200 | the same with an absolute deadline |
| KvStore.Store.Persist | src/store/KvStore.cpp:202-222 | succeeds exactly on a live key with a deadline, then the deadline is gone and SET goes to the file; a run of the concurrent store |
| KvStore.Store.Ttl | src/store/KvStore.cpp:228-242 | the full seconds left of the entry shown, -1 without deadline, -2 when none is shown |
| KvStore.Store.OnTtlExpired | src/store/KvStore.cpp:248-261 | removes the key exactly when its current entry has expired |
| KvStore.Store.DrainHeap | src/store/TtlManager.cpp:70-81 | the drain loop ends with the heap ahead of the clock and no passed deadline stored, and no key looks different; a run of the concurrent store |
| KvStore.ApplyCall | src/main.cpp:108-128 | each callback has its effect on the store's single map and keeps every deadline on the heap |
| KvStore.StartUp | src/main.cpp:98-132 | the store holds what the callbacks restore from the file, each at its own two clock readings, with every deadline on the heap; the writer is attached only afterwards; what comes up is the start of a life, for every key |
| Replies.DecodeOfRender | src/protocol/RespParser.cpp:169-205 | a reply is read back whatever follows it, if and only if its text holds no CR LF |
| Replies.RepliesDecodeExactly | src/protocol/RespParser.cpp:169-205 | the concatenated replies decode into exactly those replies if and only if no text among them holds CR LF |
| Commands.RecordsMeanEffect | src/commands/CommandDispatcher.cpp:29-223 | for every command, the records it logs mean exactly what it does |
| Commands.PxRoundsUpExactly | src/commands/CommandDispatcher.cpp:68-80 | `PX n` gives the key at least n milliseconds if and only if n is less than a second or full seconds |
| Commands.PxCutsShort | src/commands/CommandDispatcher.cpp:74-75 | `PX 1999` is one second |
| CommandLaws.CommandTable | src/commands/CommandDispatcher.cpp:234-246 | the eleven words of the command table |
| CommandLaws.NoOtherCommand | src/commands/CommandDispatcher.cpp:258-262 | no other word is a command |
| CommandLaws.ArityIsExact | src/commands/CommandDispatcher.cpp:264-272 | how many words each command takes; with any other number it is refused by name and changes nothing |
| CommandLaws.RepliesOnTheWire | src/protocol/RespParser.cpp:169-205 | the common replies byte by byte |
| CommandLaws.NumberStopsAtText | src/commands/CommandDispatcher.cpp:57-62 | a numeral is read up to its end, whatever text follows; other text is no number |
| CommandLaws.GetLaw | src/commands/CommandDispatcher.cpp:23-35 | GET answers the value shown, or nil, and changes nothing |
| CommandLaws.TtlLaw | src/commands/CommandDispatcher.cpp:123-134 | TTL answers the full seconds left, -1 or -2 |
| CommandLaws.SetLaw | src/commands/CommandDispatcher.cpp:47-50 | SET answers OK, the key shows the value for ever, and no other key changes |
| CommandLaws.SetExLaw | src/commands/CommandDispatcher.cpp:52-66 | with EX n the key shows the value until exactly n seconds later |
| CommandLaws.SetPxLaw | src/commands/CommandDispatcher.cpp:67-79 | with PX n, until the full seconds of n, at least one |
| CommandLaws.SetRefused | src/commands/CommandDispatcher.cpp:61-81 | the other forms are refused with their error and change nothing |
| CommandLaws.ExpireLaw | src/commands/CommandDispatcher.cpp:109-119 | EXPIRE n answers 1 exactly for a key shown, which then shows its value until exactly n seconds later; else 0 and no change |
| CommandLaws.ExpireRefused | src/commands/CommandDispatcher.cpp:116-117 | a number that is missing or not positive is refused and changes nothing |
| CommandLaws.PersistLaw | src/commands/CommandDispatcher.cpp:137-148 | PERSIST answers 1 exactly for a key shown with a deadline, which then has none; else 0 and no change |
| CommandLaws.DelLaw | src/commands/CommandDispatcher.cpp:92-99 | DEL answers how many different keys of those named were stored, and none of them is any more |
| CommandLaws.DbSizeLaw | src/store/KvStore.cpp:267-278 | DBSIZE answers how many keys GET would answer with a value |
| CommandLaws.OtherReplies | src/commands/CommandDispatcher.cpp:253-256 | PING, PING with a word, COMMAND, and no words at all |
| CommandLaws.UnknownReply | src/commands/CommandDispatcher.cpp:258-262 | every other word is refused, with its name and first argument echoed |
| CommandLaws.AfterSetEx | src/store/KvStore.cpp:83-133 | GET and TTL after SET EX n: the value and the seconds left, n right away, until exactly the deadline |
| CommandLaws.AfterSetAndDel | src/store/KvStore.cpp:76-147 | GET and TTL after SET and after DEL |
| CommandLaws.NamesInAnyCase | src/main.cpp:153-158 | names may be sent in either case of letters |
| Dispatcher.RunSet | src/commands/CommandDispatcher.cpp:44-82 | the SET forms, their errors, their effect and the record each writes to the file, as a run of the concurrent store |
| Dispatcher.RunDel | src/commands/CommandDispatcher.cpp:92-99 | the counting loop over the keys, a repeated key counted once, one DEL record for each |
| Dispatcher.RunExpire | src/commands/CommandDispatcher.cpp:109-119 | EXPIRE's error, answer, effect and record, with its two clock readings |
| Dispatcher.RunPersist | src/commands/CommandDispatcher.cpp:139-147 | PERSIST's answer, effect and record |
| Dispatcher.Dispatch | src/commands/CommandDispatcher.cpp:253-275 | the reply, the visible effect and the records in the file of every command on the single map, with its two clock readings; all it does is a run of the concurrent store |
| Dispatcher.OnMessage | src/main.cpp:153-160 | a pool task answers with the bytes of the reply to the command with its name in upper case, and does to store and file what that command does |
| ReplyStreams.UnknownIsOneLine | src/commands/CommandDispatcher.cpp:258-262 | the error for an unknown command is one line if and only if its name and first argument are |
| ReplyStreams.ReplyIsFramed | src/commands/CommandDispatcher.cpp:253-275 | a reply is one RESP value if and only if the command is known, or its name and first argument hold no CR LF |
| ReplyStreams.ReplyInRange | src/commands/CommandDispatcher.cpp:29-223 | every number and length in a reply fits `int64_t` |
| ReplyStreams.DispatchStreamDecodes | src/commands/CommandDispatcher.cpp:253-275 | for every sequence of commands, each on any store, the concatenated outputs of dispatch decode into exactly one value per command if and only if no unknown command echoes CR LF |
| ReplyStreams.EchoBreaksTheStream | src/commands/CommandDispatcher.cpp:258-262 | an unknown command holding CR LF whose reply is read short, with bytes left over that are no RESP value |

## Left out

- Sockets, epoll and kqueue calls, signals, command line: a read event brings arbitrary bytes, `accept` returns a descriptor that is not open.
- A read event that ends in end-of-file or an error: the code closes without looking at the bytes it just read; this is the close step.
- Idle timeout: it is a close step, possible at any time between loop iterations.
- `stop`, shutdown and the destructors of pool and reactor: the runs are those of a running server.
- `fsync` and the sync modes: the file is a byte sequence, a crash an arbitrary cut.
- Appending to a file whose tail is torn: the code does not repair it, so the cut-file results cover one crash.
- Wrap-around of the 64-bit generation counter, and sizes beyond `int64_t`.
- Allocation failure, `reserve` with a huge count in `parse_multibulk`, and a stream line longer than memory.
- Heap internals: the expiry heap is a multiset from which a minimum is taken.
- INFO text and the KEYS stub (their text is a parameter), statistics counters, and `register_command`.
- `count` under concurrency: it locks one shard after the other, so only the sequential result is stated.
- KvStore.Store.SetEx: requires that the deadline in milliseconds fits `int64_t`, because the code's addition is undefined beyond that.
- KvStore.Store.Expire: requires that the deadline in milliseconds fits `int64_t`, for the same reason.
- Linearization: is about the store's operations; a DEL of several keys is several of them, and other clients may see the store in between. So `OneStore` asks that each executed command has the store to itself, apart from readers and the expiry thread; for commands that are one operation `Linearization` is the reason they can be put in such an order.
- Dispatcher.Dispatch: requires that the deadline a SET with option or an EXPIRE asks for fits `int64_t`; the run it returns is stated for a store with the expiry thread on, as main creates it.
- EndToEnd.OneReplyPerRequest: leaves open what store each executed command finds, so that it holds however commands overlap; `OneStore.RepliesOfOneStore` ties them to one store.
