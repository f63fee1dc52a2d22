# Verified model of the HTTP-C file server

HTTP-C is a multi-threaded HTTP/1.1 file server in C whose central promise is that its audit
log is a linearization of the concurrent GET and PUT requests. This project models the parts
of the server that the promise rests on, the checkers that judge it, and the client that
drives it, and proves that the promise holds in every run.

| files | what they model |
|---|---|
| `Worker`, `Server`, `Linearization`, `Ordering`, `Failures`, `Progress` | any number of worker threads, per-URI flocks, one file store, the log mutex and the audit log, one statement a step |
| `Store`, `Sherlock` | the sequential store of `test_scripts/watson.py` and the order checker of `test_scripts/sherlock.py` |
| `LockPath` | C strings and the lockfile name of a URI |
| `Ring`, `BoundedQueue`, `ThreadPool` | the circular buffer, the three semaphores around it, and the pool with its stop sentinels |
| `RwLock` | the condition-variable reader-writer lock with both excluding policies |
| `Streams`, `Http`, `Connection` | short reads and writes, the two patterns, and `struct Conn` with the functions that fill it and send responses |
| `Heads`, `Bodies`, `Entries` | any request head the server accepts, what is stored of the body behind it, and heads given as a list of headers |
| `Client`, `Responses` | the client of `test_scripts/olivertwist.py`: the requests it prints and the responses it reads |
| `Requests` | what a worker's request is in terms of the bytes of its connection, and the whole way from the client's bytes to the client's bytes |
| `AuditLine` | the text of a log line, and how the checkers take it apart |
| `Options`, `Sums`, `Messages`, `Texts`, `Numbers` | missing values, counting over threads, response texts, texts in pieces, decimal numbers |

How the server is modelled. A worker is a program counter (`Worker.Phase`) with the lock it
holds. `Worker.Act` is one statement of the handlers; the environment chooses how it ends
(normally, with an error, after some more bytes, interrupted). `Server.Do` interleaves the
workers and the client. A flock is granted when no other worker holds the same lockfile path
in a conflicting mode. Exclusion on one URI follows because the path is a function of the URI;
that different URIs never block each other follows because that function is injective.
A log record also keeps what the request left in its file, since a failed PUT may leave part
of its body. `Server.Safe` is the invariant of every reachable state; its heart is
`Worker.Facts`, the assertion of each program point about the live file and the replayed file.

Assumptions. The store is flat: distinct URIs name distinct files (the lock is keyed by the URI
text, so `a` and `./a` would not exclude each other). Nobody else writes the files or removes
lockfiles. The server sends its response before it writes the audit line, so real time is
measured at the close of the connection: the client's wait for a request returns after the
close. An octet is the character of the same code. Reads, writes, opens and locks are decided
by the environment through `Quirk`s or `Move`s.

Where the code does not do what its documentation, or a client, would expect, the code is
followed, a lemma gives an input, and another the exact condition:

| behaviour | input | exact condition |
|---|---|---|
| the header scan does not stop at the blank line, so header-shaped text buffered with the head moves the start of the message | `Client.HeaderShapedBodyIsLost` | `Bodies.PutStoresBody`, `Bodies.PutAlwaysStoresBody` |
| a head longer than the 4096-byte buffer is accepted and spoils the body | `Client.LongHeadIsNotStored` | `Bodies.HeadIsSafe`, `Client.LongByOneSpoils` |
| a head whose last line the header pattern does not take, such as a value with a blank inside, is accepted and spoils the body | `Client.OddLineSpoils` | `Bodies.HeadIsSafe`, `Bodies.WholeExact` |
| an empty connection is never logged, so a log can lack a request the order checker waits for | `Ordering.EmptyConnectionIsNotAccepted` | `Ordering.AcceptedIffNoEmpty` |
| buffered bytes beyond the declared length are written | `Client.OverlongIsStored` | `Bodies.DeclaredAlways`, `Bodies.DeclaredBound` |
| an early end of the body counts as success | `Client.EarlyEndIsAccepted` | `Bodies.DeclaredCount` |
| the method is decided by its first three letters, only the minor version is looked at, and the character between the two numbers may be any | `Client.LooseLineIsAccepted` | `Http.VerdictExact` |

## Model

| member | source | states |
|---|---|---|
| `Linearization.LogIsLinearization` | src/httpserver.c:271-390 | In every reachable state every line of the log agrees with the sequential store run on the lines before it: a GET or PUT logged the store's status if and only if it did not fail on the way, what it sent is a prefix of the store's reply and all of it when sending succeeded, and its declared length is the reply's length. |
| `Linearization.LineMeaning` | src/httpserver.c:234-390 | What a line means, spelled out: a GET got 200 with the file or 404, a PUT 200 if the file existed and 201 if not and left its body; 403 changed nothing and 500 at most left part of the body; a request turned down got its status, 501 before 505, and changed nothing. |
| `Failures.TroubleExact` | src/httpserver.c:271-390 | In every run a GET or PUT is logged with 403 or 500 if and only if a system call of the worker serving it failed with that status, and a line's answer was cut short if and only if sending it broke off. |
| `Failures.AllServed` | src/httpserver.c:271-390 | In every run without such an error, every GET and PUT in the log was served, answered whole, and answered as the sequential store answers it after those before; an idle server has the files of that replay. |
| `Failures.NothingFails` | src/httpserver.c:271-390 | Without errors no line of a GET or PUT has status 403 or 500, and every answer was sent whole. |
| `Failures.ErrorsHappen` | src/httpserver.c:111-132 | Wherever the source checks for an error the model lets it happen, any number of bytes may be moved at a time, and an interrupted flock is retried. |
| `Linearization.LiveFilesMatchLog` | src/httpserver.c:337-390 | In every reachable state the live file equals the replayed file at every URI that no PUT between its open and its audit line is working on. |
| `Linearization.ReadersSeeTheLog` | src/httpserver.c:303-329 | A GET in the middle of sending has declared the length, and sent a prefix, of the file that the log accounts for: never a truncated or half-written file. |
| `Linearization.WatsonAccepts` | test_scripts/watson.py:227-232 | If every logged line is a GET or PUT that did not fail (no 400, 403, 500, 501 or 505), replaying the requests in log order gives every client the status and body it got, and with all workers idle leaves exactly the server's files. |
| `Linearization.ServedAnswers` | test_scripts/watson.py:101-122 | With any other lines in the log: if no PUT that failed with 500 left anything in its file, every request served was answered as the sequential store does after the requests served before, and an idle server has the files of that replay. |
| `Linearization.ServedReplay` | test_scripts/watson.py:227-231 | Then the files accounted for by the log are those of replaying only what was served. |
| `Linearization.LineReplayed` | test_scripts/watson.py:101-122 | For a log that agrees line by line, the replay of the operations alone gives each line its status, body and length. |
| `Linearization.CleanReplay` | test_scripts/watson.py:227-231 | The files accounted for by the recorded effects are the files of the sequential replay. |
| `Linearization.QuietFiles` | src/httpserver.c:337-390 | With no request in progress all live files equal the replayed ones. |
| `Linearization.ExclusiveIsAlone` | src/httpserver.c:111-132 | In every reachable state a worker with the exclusive lock of a URI is the only one holding any lock on it. |
| `Linearization.BlockedBySameUri` | src/httpserver.c:101-132 | A worker is refused its lock only because of a conflicting holder of the very same URI: different URIs never block each other. |
| `Server.SafeStep` | src/httpserver.c:224-400 | Every step of any worker or the client keeps the whole invariant: ownership of connections, lock exclusion, the log mutex, every program point's assertion, live files and the agreement of the log. |
| `Server.SafeAlways` | src/httpserver.c:224-400 | The invariant holds in every state of every run. |
| `Server.GrantedSeesLog` | src/httpserver.c:279-285 | When a flock is granted, the file under it is the replayed file. |
| `Server.ChangeIsExclusive` | src/httpserver.c:346-390 | A step that changes a live or replayed file is taken under the exclusive lock of that URI and changes no other. |
| `Server.OtherFacts` | src/httpserver.c:271-390 | No step of one worker disturbs the assertion of another (interference freedom). |
| `Server.LiveStep` | src/httpserver.c:337-390 | Every step keeps the live file equal to the replayed one, up to the pending change of a PUT. |
| `Worker.ActKeepsFacts` | src/httpserver.c:224-390 | Every statement of the handlers but the append leads from one program point's assertion to the next; it writes only under the exclusive lock, and a pending change stays pending. |
| `Worker.PutKeepsFacts` | src/httpserver.c:354-386 | Existence check, open, truncation and chunked writes build up exactly a prefix of the body, and the status is 200 or 201 by whether the replayed file exists. |
| `Worker.GetKeepsFacts` | src/httpserver.c:287-329 | Open, stat and chunked sending send a prefix of the one file, whose size was declared. |
| `Worker.AppendAgrees` | src/log.c:19-37 | Appending the line is the request's turn in the sequential order: the record agrees with the store, and afterwards nothing is pending. |
| `Ordering.LogAccepted` | test_scripts/sherlock.py:158-172 | With a request on every connection and the ids read back, at every moment of every run the log names known requests, each at most once, and every predecessor recorded by the checker stands on an earlier line. |
| `Ordering.AcceptedIffNoEmpty` | test_scripts/sherlock.py:158-172 | With empty connections allowed: the log names known requests, each at most once, and is accepted if and only if no logged request connected after an empty connection was waited for. |
| `Ordering.EmptyConnectionIsNotAccepted` | src/httpserver.c:242-246 | A run in which the client connects, sends nothing, waits, and then sends a request: its log is not accepted. |
| `Ordering.LogComplete` | test_scripts/sherlock.py:143-172 | Once every connection is closed, the log names exactly the connections that carried a request. |
| `Ordering.LogExtendsClientOrder` | src/log.c:19-37 | In every run, if the client's log shows a wait for `a` before the connect of a logged `b`, then `a` stands before `b` in the audit log if and only if it carried a request. |
| `Ordering.RealTime` | src/httpserver.c:224-269 | A request that connects after another's connection was closed is logged after it. |
| `Ordering.OrderedAlways` | src/httpserver.c:224-269 | In every reachable state a request has a line exactly when its worker is past the append or it is closed, no request has two, and the lines respect the client's order. |
| `Ordering.EventsWellFormed` | test_scripts/sherlock.py:143-156 | The client's event log in every run has one connect per request and nothing of a request before it. |
| `Ordering.HistoryGrows` | src/log.c:19-37 | The log is only ever appended to. |
| `Progress.NeverStuck` | src/httpserver.c:111-132 | Every safe state with an unfinished request has an enabled step of the server: waiting for a lock or the log mutex never becomes a deadlock. |
| `Progress.ActDecreases` | src/httpserver.c:224-390 | Each statement of a request, apart from a retried flock, brings down a measure of phase and bytes left. |
| `Progress.EveryRequestIsClosed` | src/httpserver.c:224-269 | From every reachable state and under every schedule, all connections made so far are eventually closed. |
| `Progress.Drains` | src/httpserver.c:224-269 | Every infinite future without new clients reaches a safe state with no request in progress and none lost. |
| `Progress.TrackedAlways` | src/httpserver.c:224-269 | No connection is lost: it is queued, with a worker, or closed. |
| `LockPath.LockPathFor` | src/httpserver.c:101-106 | The loop fills the buffer, in place, with the C string of directory, slash and URI, cut to the buffer; slashes of the URI become percent signs and everything else is kept, so that with the server's sizes the lockfile name has no slash. |
| `LockPath.PathInjective` | src/httpserver.c:63-106 | With the server's buffer sizes nothing is cut off, and two parsed URIs have the same lockfile if and only if they are equal. |
| `LockPath.PathIsEntry` | src/httpserver.c:101-106 | With the server's sizes the lockfile is a direct entry of the lock directory: its name is the URI with each slash replaced by a percent sign. |
| `Sherlock.PartiallyOrder` | test_scripts/sherlock.py:143-156 | The loop computes the recorded order, or fails exactly where the assertion does. |
| `Sherlock.RecordedExact` | test_scripts/sherlock.py:143-156 | The assertion holds if and only if every event other than LOAD and UNLOAD has a CONNECT of its id at or before it, SLEEP counting as id 0; the requests recorded are those that connected. |
| `Sherlock.RecordedSets` | test_scripts/sherlock.py:143-156 | For every log it accepts, SLEEP lines and repeated CONNECTs included: finished are exactly the requests waited for, and the predecessors of a request exactly those waited for before its first CONNECT. |
| `Sherlock.RecordedMeaning` | test_scripts/sherlock.py:143-156 | For well-formed logs the recorded sets are exactly the pairs "waited for before connecting". |
| `Sherlock.IntervalOrder` | test_scripts/sherlock.py:143-156 | The recorded relation is irreflexive, transitive and an interval order. |
| `Sherlock.ValidateOrder` | test_scripts/sherlock.py:158-172 | The verdict is 0 if and only if every line's predecessors all stand on earlier lines; an unknown id is the key error. |
| `Sherlock.AcceptedIffLinearExtension` | test_scripts/sherlock.py:158-172 | A log naming each request once is accepted if and only if it is a linear extension of the recorded order. |
| `Ring.StoreAppends` | src/queue.c:96-98 | Storing into a ring that is not full appends to its contents and keeps `tail == (head + count) % size`. |
| `Ring.DropRemoves` | src/queue.c:113-115 | Taking from a ring that is not empty removes its oldest element. |
| `Ring.Buffer.constructor` | src/queue.c:55-72 | A new buffer is valid and empty. |
| `Ring.Buffer.Push` | src/queue.c:96-98 | The in-place critical section of queue_push refines appending. |
| `Ring.Buffer.Pop` | src/queue.c:113-115 | The in-place critical section of queue_pop refines taking the oldest element. |
| `BoundedQueue.StepInv` | src/queue.c:89-120 | Every statement of any pusher or popper conserves the tokens: free tokens, claims, elements and slots awaiting a post add up to the size, likewise for elements. |
| `BoundedQueue.QueueIsFifo` | src/queue.c:62-120 | In every run of any number of threads the popped sequence is a prefix of the pushed sequence, the difference being what is buffered. |
| `BoundedQueue.NoOverrun` | src/queue.c:89-120 | No push overwrites an unread slot and no pop reads an empty one. |
| `BoundedQueue.MutualExclusion` | src/queue.c:93-118 | At most one thread is inside the critical section. |
| `BoundedQueue.BlockedMeans` | src/queue.c:93-111 | If nobody inside can move, the mutex is free, pushers wait on a full queue only and poppers on an empty one only. |
| `ThreadPool.PoolStepInv` | src/threadpool.c:30-100 | Every step keeps: what is pushed, carried and left is the script, and what was popped was handled or is in one worker's hand. |
| `ThreadPool.CleanShutdown` | src/threadpool.c:87-100 | When the owner's last join returned, every submitted descriptor was handled exactly once, every worker exited on a sentinel of its own, and the queue is empty. |
| `ThreadPool.NeverStuck` | src/threadpool.c:30-100 | Whatever the queue size and the number of workers, some thread can move until the owner is done. |
| `ThreadPool.StepDecreases` | src/threadpool.c:30-100 | Every step of the protocol brings a measure down. |
| `ThreadPool.ShutdownTerminates` | src/threadpool.c:64-100 | Under every schedule the owner gets through its last join; with nothing submitted this is the rollback of a half-made pool. |
| `RwLock.StepInv` | practica/pthreads/rwlock/rwlock.c:53-107 | Every statement of any thread, and every spurious wake-up, keeps: the counters count, readers and writers exclude, a thread that passed its check may enter, no wake-up is lost. |
| `RwLock.InvAlways` | practica/pthreads/rwlock/rwlock.c:53-107 | The invariant holds in every state of every run, under both policies. |
| `RwLock.WriterIsAlone` | practica/pthreads/rwlock/rwlock.c:75-95 | A writer inside is the only thread inside. |
| `RwLock.EntryRespectsPolicy` | practica/pthreads/rwlock/policy_rstarve.c:6-15 | Preferring writers, no reader enters while a writer is inside or waiting; preferring readers, none while a writer is inside; a writer enters only when nobody is. |
| `RwLock.CheckExact` | practica/pthreads/rwlock/policy_wstarve.c:7-16 | In every run a thread that evaluates its wait predicate goes on if and only if the policy says so, by what the threads are doing: a writer when nobody is inside, a reader when no writer is inside and, preferring writers, none is waiting; otherwise it sleeps. |
| `RwLock.SleepersMustWait` | practica/pthreads/rwlock/rwlock.c:97-107 | Unless a thread is inside rwlock_wakeup, every unsignalled sleeper has a true wait predicate. |
| `RwLock.NeverStuck` | practica/pthreads/rwlock/rwlock.c:53-107 | While some thread uses the lock some thread can take a step, without spurious wake-ups. |
| `RwLock.StepDecreases` | practica/pthreads/rwlock/rwlock.c:53-107 | Broadcasts left get fewer, and between broadcasts the statements left do. |
| `RwLock.EverybodyGetsThrough` | practica/pthreads/rwlock/policy_wstarve.c:7-16 | Under either policy and every schedule without new calls, all threads get the lock and give it back. |
| `RwLock.SomebodyGetsIn` | practica/pthreads/rwlock/rwlock.c:53-107 | Under either policy and every schedule of steps and new calls: while somebody waits, somebody gets in. |
| `RwLock.WriterGetsIn` | practica/pthreads/rwlock/policy_rstarve.c:6-15 | Preferring writers, under every schedule of steps and new calls: while a writer waits, a writer gets in, however many readers call. |
| `Streams.WriteAll` | src/util.c:24-37 | All bytes are written, or a prefix of them and -1, and -1 only if a write failed; for every schedule of short and interrupted writes. |
| `Streams.ReadRetry` | src/util.c:53-56 | The retry loop ends with the first read that no signal interrupts, and loses nothing. |
| `Streams.PassBytes` | src/util.c:44-71 | Success moves exactly the first min(nbytes, bytes to the end) bytes; failure leaves a prefix of them written. |
| `Streams.Find` | src/util.c:94-99 | The search finds the needle if and only if it occurs in the bytes held. |
| `Streams.ReadUntil` | src/util.c:77-103 | Success holds a prefix of the stream that fills the buffer, ends the stream or contains the needle, which did not lie within the bytes held before the last read; failure reports the first error of the descriptor, and whether it is a timeout. |
| `Http.FieldAtExact` | src/connection.c:58 | The header matcher finds a match at a position if and only if the pattern matches there, and in just one way. |
| `Http.FindFieldLeftmost` | src/connection.c:58-131 | If the pattern matches anywhere, a match is found and none lies further left. |
| `Http.FindFieldIsField` | src/connection.c:58-131 | What is found is a match of the pattern. |
| `Http.MatchLineIsLine` | src/connection.c:57 | What the request-line matcher finds is a match of the pattern. |
| `Http.LineUnique` | src/connection.c:57 | Every text the pattern matches is matched, with method, URI and end determined and the longest major number. |
| `Http.MatchLineExact` | src/connection.c:57 | The request-line matcher returns a match if and only if it is the one with the longest major number among all matches of the pattern. |
| `Http.VerdictExact` | src/connection.c:175-225 | For every text with a request line: exactly when it is accepted, turned down with 400 (two-digit minor version) or with 505 (minor version other than 1), and the method by its first three letters. |
| `Http.NoLineIsBad` | src/connection.c:174-178 | The matcher finds nothing if and only if nothing matches, and then the answer is 400. |
| `Http.Alphabets` | src/connection.c:57-58 | The bracket expressions of the two patterns, by character code. |
| `Http.AcceptedRequest` | src/connection.c:163-226 | Every accepted request begins with a full request line, and its URI has 1 to 63 admitted characters. |
| `Connection.ScanHeaders` | src/connection.c:125-155 | The header loop terminates and is a fold over the successive leftmost matches, in which the last exact Content-Length and Request-Id win. |
| `Connection.Conn.constructor` | src/connection.c:228-237 | A new connection is blank, with request id "0". |
| `Connection.Conn.ParseHeaders` | src/connection.c:113-160 | The message starts two characters behind the last header; length and id are those of the fold. |
| `Connection.Conn.Interpret` | src/connection.c:180-225 | Method, URI and version checks in the order of the code, then the headers. |
| `Connection.Conn.ProcessRequest` | src/connection.c:163-226 | The fields of the connection show the verdict on the buffered text. |
| `Connection.Conn.Fill` | src/connection.c:248-272 | The buffer holds a cut of the stream, and the matcher sees it up to its first NUL; a failed read tells whether it timed out. |
| `Connection.Conn.Parse` | src/connection.c:247-285 | For every stream, however it is cut up: the verdict is that on the part read; an empty stream gives 400, a failed read 500 if its first error is a timeout and 400 otherwise; and on success `messageStart + inMessage == bytesRead`. |
| `Connection.Conn.RecvFile` | src/connection.c:307-334 | On success the file gets the kept bytes and then the stream up to the declared length or its end; on failure a prefix of that. |
| `Connection.StoredFromBuffer` | src/connection.c:307-334 | What is copied from the buffer and the rest of the stream is a function of the whole stream, wherever it was split. |
| `Connection.SendResponse` | src/connection.c:356-373 | The response text is sent whole, or a prefix of it and failure. |
| `Connection.SendFile` | src/connection.c:336-354 | The head declaring the count and that many bytes of the file are sent, or a prefix and failure. |
| `Heads.HeadersSplit` | src/connection.c:131-155 | For any complete lines and any text behind them, the headers the loop finds are those of the lines and then those of the text: no match crosses the end of a line. |
| `Heads.LineSame` | src/connection.c:57 | Text behind the request line does not change how it is matched. |
| `Heads.HeadRead` | src/connection.c:163-226 | For every head the server accepts and any text behind it: method and URI are those of the head; without header-shaped text the whole verdict is that on the head alone, otherwise the message seems to start inside the text. |
| `Heads.FirstBlank` | src/util.c:94-99 | The first blank line of head and body is the one that ends the head, whatever the body holds. |
| `Heads.HeaderInPrefix` | src/connection.c:131-155 | Header-shaped text stays header-shaped when more text follows. |
| `Bodies.ServePut` | src/connection.c:247-334 | The modelled conn_parse and conn_recv_file, on any stream without I/O errors, accept exactly by the text read, and then write exactly the stored bytes the theorems speak of. |
| `Bodies.StoredExact` | src/connection.c:307-334 | For any start and length, right or wrong, what is stored of head and body is the body if and only if the copied stretch has its size, starts no later, and the body repeats the end of the head stored before it. |
| `Bodies.CutOfHead` | src/util.c:77-103 | Whatever read_until returns covers the whole head if that fits the buffer, and otherwise is a full buffer. |
| `Bodies.PutStoresBody` | src/connection.c:247-334 | For every head the server accepts, every body, every declared length and every cut of the stream: the request is accepted with its method and URI, and exactly when the file gets the body; for a head that fits the buffer this needs no header-shaped text in the part of the body read with it. |
| `Bodies.PutAlwaysStoresBody` | src/connection.c:247-334 | For every accepted head that declares the size of the body: the body is stored under every cut of the stream if and only if a condition on head and body holds that a client can check. |
| `Bodies.WholeIsSafe` | src/connection.c:247-334 | For a head that fits the buffer and whose last line the pattern takes, that condition is that the part of the body that fits behind the head has no header-shaped text before its first NUL. |
| `Bodies.HeadIsSafe` | src/connection.c:247-334 | For every accepted head that declares a length of at least 1: every body of that size without such text is stored under every cut, if and only if the head fits the buffer and its lines end in a match of the header pattern (or there is only a request line). |
| `Bodies.WholeExact` | src/connection.c:131-157 | For every accepted head: the message is found right behind the head if and only if the lines end in a match of the header pattern, or there is only a request line. |
| `Heads.ReachesEnd` | src/connection.c:131-157 | For any text: the header loop ends at the end of the text if and only if there is nothing to scan or some match of the pattern, overlapping or not, ends there. |
| `Bodies.UntakenLineLoses` | src/connection.c:131-157 | Behind a head whose last line is not taken, a body that does not start like the part of the head stored before it is not safe. |
| `Bodies.NulHead` | src/connection.c:272-282 | Behind a head with a NUL in it the verdict is that on the text before the NUL, whatever the body, the message seems to start inside the head, and exactly when the body is stored all the same. |
| `Bodies.LongHead` | src/connection.c:248-282 | Behind a head that does not fit the buffer, the verdict is that on the first 4096 bytes, and exactly when the body is stored all the same. |
| `Bodies.LongHeadAccepted` | src/connection.c:248-282 | A head that does not fit the buffer is accepted with its method and URI. |
| `Bodies.LongHeadLoses` | src/connection.c:248-282 | Behind such a head a body that starts with a character the head does not have is never safe. |
| `Bodies.LongByOne` | src/connection.c:248-334 | A head of 4097 bytes is read as if whole, and the file gets a newline and the body without its last byte. |
| `Bodies.DeclaredExact` | src/connection.c:307-334 | For every stream, cut, start and length: exactly the declared bytes are stored if and only if no more than that came with the head; as many as declared if and only if moreover that many were sent. |
| `Bodies.DeclaredBound` | src/connection.c:310-319 | More than the declared length is stored if and only if more came with the head. |
| `Bodies.DeclaredAlways` | src/connection.c:310-331 | For a head read correctly: the declared bytes are stored under every cut if and only if no more than that fit the buffer behind the head. |
| `Bodies.DeclaredCount` | src/connection.c:325-333 | ...and exactly the declared number of bytes if and only if moreover that many were sent; a body that ends early is stored short. |
| `Entries.ListFound` | src/connection.c:131-155 | Behind a request line, the header loop goes through exactly the list of headers printed. |
| `Entries.ListRead` | src/connection.c:113-226 | Any request line and any list of headers the pattern takes is accepted, the values are those of the last Request-Id and Content-Length, and the message starts right behind the head. |
| `Entries.ListStoresBody` | src/connection.c:247-334 | For every such list whose last Content-Length is the size of the body: stored under every cut if and only if no header-shaped text can be read with a head that fits the buffer, or the condition for long heads holds. |
| `Entries.HeaderNames` | src/connection.c:128-152 | By name: `Request-Id` gives the id and `Content-Length` the length, whatever comes before; without them the id is `0` and the length 0. |
| `Entries.LongValueIsNotTaken` | src/connection.c:58 | A header value of more than 128 characters is not taken at all. |
| `Entries.LongKeyIsCut` | src/connection.c:58 | Of a header key of 128 or more characters the last 128 are taken. |
| `Client.RequestRoundTrip` | test_scripts/olivertwist.py:45-57 | For every request the client can print and any text buffered behind it: method and URI are read back, the message starts at the body if and only if that text has no header-shaped part, and then id and length are read back too. |
| `Client.PrintedRead` | test_scripts/olivertwist.py:45-57 | The head the client prints is accepted, fits the buffer, and is read back as method, URI, id and length. |
| `Client.PrintedBytes` | test_scripts/olivertwist.py:45-57 | The head the client prints, byte by byte. |
| `Client.LineAcceptedIff` | src/connection.c:57 | A request line of version 1.1 with a method of letters and a URI of admitted characters is accepted if and only if they have 1 to 8 and 1 to 63 of them; otherwise the answer is 400. |
| `Client.ClientPutStored` | test_scripts/olivertwist.py:45-57 | A PUT of the client is stored under every cut if and only if the part of its body that fits behind the head has no header-shaped text. |
| `Client.HeaderShapedBodyIsLost` | src/connection.c:131-157 | The body `a: b` with a line end is not stored when it arrives with its head. |
| `Client.OverlongIsStored` | src/connection.c:310-319 | One byte is declared, two arrive with the head, two are stored. |
| `Client.EarlyEndIsAccepted` | src/connection.c:325-333 | Five bytes are declared, two are sent, the request is accepted and two are stored. |
| `Client.LooseLineIsAccepted` | src/connection.c:180-214 | `GETX /a HTTP/9x1` is accepted as a GET of `a`. |
| `Client.LongByOneSpoils` | src/connection.c:248-334 | Behind a head of 4097 bytes a body is stored if and only if it is nothing but newlines. |
| `Client.LongHeadIsNotStored` | src/connection.c:248-334 | For every URI of at most 27 characters, a PUT of one byte with seventeen headers and a head of 4097 bytes is accepted and not stored. |
| `Client.OddLineSpoils` | src/connection.c:131-157 | A PUT of one byte whose last header is `X: a b` is accepted with the right length and not stored. |
| `Client.OddLine` | src/connection.c:131-157 | Behind any accepted lines that header leaves all that was read off them, and hides where the body starts. |
| `Responses.ResponseRoundTrip` | test_scripts/olivertwist.py:125-138 | From every response of the server the client reads the exact status and the exact body, whatever the body holds. |
| `Responses.LengthReadBack` | src/connection.c:336-373 | The first header of every response is its Content-Length, and reads as the length declared. |
| `Responses.SuccessBytes` | src/connection.c:356-373 | The 200 and 201 responses of conn_send_response, byte by byte. |
| `Responses.RefusalBytes` | src/connection.c:356-373 | The 403 and 404 responses. |
| `Responses.BadRequestBytes` | src/connection.c:356-373 | The 400 response. |
| `Responses.NotImplementedBytes` | src/connection.c:356-373 | The 501 response. |
| `Responses.InternalErrorBytes` | src/connection.c:356-373 | The 500 response. |
| `Responses.VersionBytes` | src/connection.c:356-373 | The 505 response. |
| `Responses.FindBlank` | test_scripts/olivertwist.py:134 | The first position of the blank line, or -1 if there is none. |
| `Requests.UnderstoodIsParseable` | src/connection.c:57-226 | Whatever bytes a client sends, the request a worker gets from them meets what the step system requires of its URI. |
| `Requests.Receive` | src/httpserver.c:224-265 | handle_connection up to its handlers, on any stream: a failed read becomes a request turned down with 500 after a timeout and 400 otherwise; any other stream is understood by the part read. |
| `Requests.NothingUnderstood` | src/httpserver.c:242-246 | A connection is empty if and only if nothing was read; without a request line it is turned down with 400. |
| `Requests.UnderstoodExact` | src/httpserver.c:256-265 | By the patterns alone: a request with a line is turned down with 400 or 505 by its minor version, and otherwise is a GET, a PUT of the bytes stored, or unsupported, by the first letters of its method. |
| `Requests.HeadUnderstood` | src/connection.c:247-334 | For every head read correctly and every cut, the worker serves its method, URI and id, and for a PUT exactly the body, if no header-shaped text can be read with the head. |
| `Requests.RequestUnderstood` | test_scripts/olivertwist.py:45-57 | From bytes to the sequential store: however the stream of a GET or PUT the client prints is cut up, the worker serves exactly that operation under that id, on the same condition. |
| `Requests.FromClientIsFaithful` | test_scripts/olivertwist.py:45-57 | With such requests on all connections every id is read back, which is what the order of the log needs. |
| `Requests.ClientReadsReply` | test_scripts/olivertwist.py:125-138 | In every run, for every logged GET or PUT that did not fail and was answered whole: the bytes are those conn_send_file or conn_send_response sends, and the status, the body and the Content-Length the client reads from them are those of the sequential store's reply. |
| `Requests.EndToEnd` | test_scripts/watson.py:227-232 | In every run whose connections all carry requests the client printed, with no failed line and every response sent whole: the status, body and Content-Length the client reads for each are those of the sequential store's answer to the operation the client asked for, in log order, and an idle server has the files of that replay. |
| `Requests.EndToEndUndisturbed` | test_scripts/watson.py:227-232 | In every run without a failing system call or a broken answer this holds of every request the client printed: no line failed. |
| `Numbers.LengthRoundTrip` | src/connection.c:146 | The decimal length the client prints is what strtoull and the cast read, in at most 19 digits. |
| `Numbers.StrtoullReads` | src/connection.c:146 | A decimal number followed by anything else is read, up to 2^64 - 1. |
| `Numbers.StrtoullNegates` | src/connection.c:146 | With a minus sign the cast gives the negative number down to -2^63, and -1 beyond 2^64. |
| `Numbers.StrtoullOfNothing` | src/connection.c:146 | Text that does not start like a number is read as 0. |
| `AuditLine.LineRoundTrip` | src/log.c:32-35 | Every log line is taken apart by the checkers into the method, URI, status and id printed. |
| `AuditLine.ParsedIsLoggable` | src/connection.c:113-226 | Whatever text a client sends, accepted or not, its URI and id have only admitted characters and the id is never empty. |
| `AuditLine.AuditedReadBack` | test_scripts/watson.py:66-68 | So the line of any request gives the checkers its fields back. |

## Left out

- Statements of interleaved threads are modelled on values: the handlers, semaphore operations, lock counters and pool are step systems over immutable states, so that any number of threads can be interleaved; only the sequential pieces (the ring buffer, `struct Conn`, the lockfile path, the byte pumps, the checkers' loops) are imperative.
- The critical section of queue_push or queue_pop is one step: `BoundedQueue.MutualExclusion` justifies it.
- The server takes queued connections in any order, which includes the order of the queue.
- Directories, path aliases, permissions and devices: an open may fail with 403 or 500 at the environment's choice.
- Failures of opening a lockfile and of flock itself are one failing step, as both lead to the same 500.
- The step system takes the bytes of a connection as read once and for all: a request comes with its connection as `Requests.Understood` describes it, and the single reads of the parser are not interleaved with other workers, who share nothing with them.
- Ordering.LogAccepted: needs a request on every connection, whose id was read back: an empty connection is never logged (`Ordering.AcceptedIffNoEmpty` is exact about those), and a request turned down early is logged with id 0; `Requests.FromClientIsFaithful` shows it for the client's own requests.
- Linearization.WatsonAccepts: needs every line to be a GET or PUT that did not fail, so no 400, 403, 500, 501 or 505, because watson.py replays every line as a success; `Linearization.ServedAnswers` allows all other lines, and `Linearization.LogIsLinearization` covers failed requests, including what a failed PUT may leave in its file.
- Progress.EveryRequestIsClosed: speaks of futures without new clients and without interrupted flocks, after any run that may have had both, so finitely many of either are covered; it takes client I/O to end by data, end of stream, error or timeout.
- RwLock.EverybodyGetsThrough: speaks of futures without new calls and without spurious wake-ups, after any run that may have had both, since under an endless stream of calls either policy may starve threads; with new calls `RwLock.SomebodyGetsIn` and `RwLock.WriterGetsIn` hold.
- Integer overflow of head, tail, count and the offsets: the sizes involved are bounded by the queue size and the 4096-byte buffer.
- The closed log stream of log_close, signal handling, main, lock directory creation, listener and option parsing.
- Failures of malloc, regcomp, sem_init and pthread_create other than as the start of the pool's rollback.
- The APPEND events and the file comparison by diff of watson.py, parsing of event lines.
- Ordering.EventsWellFormed: the modelled client writes no SLEEP lines, which sherlock.py reads as events of request 0; `Sherlock.RecordedExact` says what they do.
- Entries.ListStoresBody: speaks of headers the pattern takes; for heads with other lines `Bodies.PutStoresBody` and `Bodies.HeadIsSafe` give the exact condition.
- Bodies.DeclaredAlways: speaks of heads read correctly and text that is not header-shaped; otherwise start and length are those of text the client did not mean, as `Bodies.PutStoresBody` describes.
- Bodies.PutStoresBody: a head is complete lines without a NUL and without a blank line among them, closed by a blank line; a NUL in the head is `Bodies.NulHead`.
- The client's state machine over its socket; only the bytes it prints and reads are modelled.
- policy_none.c, which deliberately excludes nobody, the other exercises, benchmarks, load generators and build files.
- Http.FindFieldLeftmost: the two fixed patterns are matched by hand-written matchers; POSIX regular expressions in general are not modelled.
