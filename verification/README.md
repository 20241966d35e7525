# PacketFence: a verified model of its self-contained cores

This project models the parts of PacketFence that carry an algorithm or a protocol of their own, and proves
what they promise. `dafny verify dfyconfig.toml` checks everything.

* **galera-autofix** (`GaleraNodes`, `GaleraProtocol`, `GaleraSurvival`, `GaleraAgreement`, `GaleraRecovery`,
  `GaleraElection`, `GaleraConduct`).
  The list of servers a node keeps is a class with the loops of the source. The cluster is a step system: every
  node runs its decision loop on its own, a datagram once sent can be delivered late, repeatedly, out of order
  or never, and databases come up, degrade, die and synchronise by themselves. The data survive every run of
  every cluster exactly when `systemctl stop` cannot fail: the source ignores the error of `ForceStop`, and two
  nodes whose databases keep running can each see the other up and erase their data. The nodes that can
  bootstrap are exactly those some possible reports put first, and two nodes can never both bootstrap exactly
  when there is at most one such node, as there is while the numbers stay fixed. Where a database comes up only
  beside a peer that is up or after being started as a new cluster, a cluster that is down stays down until a
  bootstrap, and can come back exactly when a node with the data can bootstrap. The losers of an election wait for
  its winner and for nobody else, and can all come back through it. A loop leaves a database alone that is up or in
  maintenance.
* **timedlock.RWLock** (`TimedLock`). Channels are token counts, every channel and mutex operation is a step, a
  timeout may strike at every wait, and any number of goroutines interleave. Nobody gives up without a timeout, and
  a writer that meets readers can outlast them.
* **SHA-1** (`Sha1Spec`, `Sha1Context`, `Sha1Example`). The incremental context is a class over a 64-octet array; the reference
  is the one-shot computation of FIPS 180-1. The algorithm is stated over arbitrary word operations and used
  with the 32-bit ones. Its words and registers satisfy their recurrences, and it gives "abc" the digest that the
  standard publishes, derived round by round.
* **CEF and syslog text** (`Cef`, `CefWriter`, `Syslog`). The writers fill a caller's array from a moving position;
  the readers are the inverse parsers. Exactly the special characters are escaped, and no value can break a line.
* **Facility and priority names** (`Words`, `Lookup`). The binary search compares prefixes, so a listed name gets
  the value at the first probe into the block of names it begins; of the names of both tables only "auth" gets
  another's value, that of "authpriv".
* **Template expansion** (`Template`) of detectparser, with what every kind of reference stands for.
* **Log rotation and clean-up** (`Rotation`, `Cleanup`). Tables are multisets or sequences of rows, and the choice
  a LIMIT leaves open is the database's. A rotation whose two statements may break ties differently conserves
  the rows over every run exactly when no tie straddles the edge of a batch.
* **Request history, TryableOnce, attribute search, API tokens and authorization** (`RequestHistory`,
  `TryableOnce`, `Query`, `Tokens`, `Authorization`, `AuthorizationTable`). The 98 entries of the path table are
  written out in alphabetical order, each with its place in the source's table.

Where the code and its names disagree, the code is followed: the rotation loop stops on `Timeout`, not on
`RotateTimeout` (go/cron/ip4log_cleanup.go:122), and which of the two it is plays no part in the model.

Assumptions about the environment, all explicit in the model: a database that is available has the data; a
database that was stopped stays stopped until its own node starts it; a node that has erased its data serves
again only after synchronising from an available one; whether a database can come up with no peer up is a
parameter, left open for survival and agreement and denied for recovery; the restart after a timed-out wait ends before the next
round. Each node is one entry of the server list, with its own address and hostname. Clocks, network, SQL
engine choices and failures are parameters.

## Model

| member | source | states |
|---|---|---|
| GaleraSurvival.DataSurvivesIffStopsSucceed | go/cmd/galera-autofix/main.go:205-265 | over every run of every cluster some node keeps the data, if and only if stopping a database cannot fail (or there is no peer) |
| GaleraSurvival.UnstoppedNodesLoseTheData | go/cmd/galera-autofix/main.go:238-265 | for every cluster of two or more servers, the run in which both holders of the data fail to stop, see each other up, and both erase |
| GaleraSurvival.RunKeepsInv | go/cmd/galera-autofix/main.go:126-276 | in every state of a run with working stops, a node that waits or erases is stopped, and another node has the data and is not bound to erase it |
| GaleraAgreement.AgreementIffOneElectable | go/cmd/galera-autofix/main.go:162-203 | under loss, duplication and reordering of reports two nodes are never both bound to bootstrap, if and only if at most one node has a number, other than the two markers, that beats some possible number of every other node |
| GaleraAgreement.BootstrapsIffElectable | go/cmd/galera-autofix/main.go:162-203 | in a cluster of two or more, some run brings a node to bootstrap if and only if it has such a number |
| GaleraAgreement.BootstrapperIsElectable | go/cmd/galera-autofix/main.go:171-196 | at any point of any run, a node bound to bootstrap has such a number |
| GaleraAgreement.FixedNumbersAgree | go/cmd/galera-autofix/main.go:176-196 | with fixed numbers, only the first server in list order with the greatest number ever bootstraps |
| GaleraAgreement.TwoBootstrap | go/cmd/galera-autofix/main.go:41-75 | from reports that come out two ways with different winners, a run in which both winners bootstrap |
| GaleraRecovery.RecoversIffHolderCanLead | go/cmd/galera-autofix/main.go:126-276 | where no database comes up alone without a bootstrap: from any initial state some run brings every node back with the data, if and only if a node with the data is up, runs as a new cluster already, or can be elected to start one |
| GaleraRecovery.RecoversIffChosenHasData | go/cmd/galera-autofix/main.go:162-203 | there, with fixed numbers and everything down: if and only if the node those numbers choose has the data |
| GaleraRecovery.DownWithoutBootstrap | go/cmd/galera-autofix/main.go:267-276 | there, over every run without a StartNewCluster step, a cluster that is down stays down |
| GaleraElection.LosersAwaitChosen | go/cmd/galera-autofix/main.go:176-203 | with fixed numbers and nothing up at first, over every run in which no database comes up, a node bound to rejoin another or waiting for it is not the chosen one and waits for the chosen one |
| GaleraElection.LosersAwaitElectable | go/cmd/galera-autofix/main.go:176-203 | the same whatever the numbers: the node waited for is another one, and one that some possible reports put first |
| GaleraElection.LosersReturnByElection | go/cmd/galera-autofix/main.go:162-265 | from nothing up, if an electable node runs and has the data, a run without FindPeer brings every other running node to wait for it, and a further one without FindPeer brings all running nodes back with the data |
| GaleraConduct.UpNodesAreLeftAlone | go/cmd/galera-autofix/main.go:126-135 | over any run in which its database stays up, a node between rounds, probing, cooling down or elected comes to no stop and keeps its data |
| GaleraConduct.MaintenanceIsRespected | go/cmd/galera-autofix/main.go:238-276 | a service that is down by no act of the loop stays down, with its data untouched, over any run without a start by the operator |
| GaleraConduct.CollectsIffNobodySeen | go/cmd/galera-autofix/main.go:205-225 | a round that finds its own database down can collect numbers exactly when it has seen no peer up, and can turn to a peer exactly when it is the first seen up |
| GaleraConduct.ServiceChangesOnlyBy | go/cmd/galera-autofix/main.go:238-276 | data are lost only to an erasure that succeeds; a service is started only by its operator or at the end of one of the three workflows, and stopped only by dying or by a stop that succeeds |
| GaleraConduct.WaiterGetsServiceBack | go/cmd/galera-autofix/main.go:242-249 | a node that has stopped and waited too long can have its service back, with its data and not as a new cluster |
| GaleraConduct.RoundCanEnd | go/cmd/galera-autofix/main.go:137-174 | a round that probes, cools down or collects can end with everything as it was |
| GaleraNodes.NodeList.HandleMessage | go/cmd/galera-autofix/chitchat.go:46-78 | a report sets exactly the slots of the sender's address; an unparsable one sets none |
| GaleraNodes.NodeList.GetSeqnoReport | go/cmd/galera-autofix/main.go:41-75 | succeeds at the first datagram after which every server has reported, with the view of the datagrams read so far |
| GaleraNodes.NodeList.FilterPeers | go/cmd/galera-autofix/main.go:227-236 | the other servers, in list order, none missing |
| GaleraNodes.NodeList.HighestSeqnoNode | go/cmd/galera-autofix/main.go:176-191 | the first server with the greatest number, or nothing exactly when a report is missing or that number is the running marker |
| GaleraNodes.NodeList.AvailablePeer | go/cmd/galera-autofix/main.go:205-225 | the first peer in list order whose database was seen up, or nothing exactly when there is none |
| TimedLock.Exclusion | go/timedlock/rw_lock.go:85-124 | in every state of every run, while a goroutine holds the write lock no other writes or has a reader token |
| TimedLock.Conservation | go/timedlock/rw_lock.go:40-56 | in every state of every run each token (one to write, a thousand to read) is in its channel or with exactly one goroutine, no send finds its channel full, and no rightful release panics |
| TimedLock.StepKeepsInv | go/timedlock/rw_lock.go:85-192 | every step of every goroutine keeps token counts, mutex ownership, ids and the absence of readers beside a writer |
| TimedLock.NoDeadlock | go/timedlock/rw_lock.go:85-192 | in every state of every run each goroutine can go on, or the owner of the mutex can |
| TimedLock.StarvedReaderTimesOut | go/timedlock/rw_lock.go:166-191 | a reader that finds all read locks taken holds the mutex RUnlock needs: it stays starved until its timer fires |
| TimedLock.IdsDoNotRepeat | go/timedlock/rw_lock.go:74-83 | lock ids are never 0 and come back after exactly 2^64 - 1 calls, across wrap-around |
| TimedLock.WriterCanGetIn | go/timedlock/rw_lock.go:85-112 | whenever the lock is free and unread, any idle goroutine can get the write lock |
| TimedLock.ReaderCanGetIn | go/timedlock/rw_lock.go:157-180 | whenever the lock is free and a read lock is left, any idle goroutine can join the readers |
| TimedLock.GivingUpTakesATimeout | go/timedlock/rw_lock.go:85-112 | in every run, a goroutine that gives up or has failed has been timed out since it was last idle |
| TimedLock.WriterOutlastsReaders | go/timedlock/rw_lock.go:97-106 | from every reachable state in which a writer has found readers and all others read or are idle, the readers can leave and the writer get the lock with no timeout of its own |
| TimedLock.IdleAfterReleaseOrFailure | go/timedlock/rw_lock.go:85-192 | a goroutine is idle again only after a release or a reported failure |
| TimedLock.ReleasePanicsIff | go/timedlock/rw_lock.go:114-124 | a release panics exactly when there is nothing to release or with id 0, and then changes no token |
| Sha1Context.Hash | addons/nthash_AD_attribute/src/sha1.c:71-185 | however the message is cut into pieces, the digest is the SHA-1 of the whole, and hashing fails exactly from 2^64 bits on |
| Sha1Context.Context.Input | addons/nthash_AD_attribute/src/sha1.c:143-185 | extends the message by the piece; corrupted exactly on length overflow, or on a non-empty piece after the result or after corruption |
| Sha1Context.Context.Result | addons/nthash_AD_attribute/src/sha1.c:104-119 | unless corrupted, the digest is that of the padded message, and asking again changes nothing |
| Sha1Context.Context.PadMessage | addons/nthash_AD_attribute/src/sha1.c:326-371 | pads into one block or two, and folds exactly the padded message of the standard |
| Sha1Context.Context.ProcessMessageBlock | addons/nthash_AD_attribute/src/sha1.c:207-301 | the block function of the standard applied to the digest and the 64 octets |
| Sha1Context.RunRounds | addons/nthash_AD_attribute/src/sha1.c:237-287 | the four loops of twenty rounds are the eighty rounds of the standard |
| Sha1Context.FillWords | addons/nthash_AD_attribute/src/sha1.c:224-235 | the words W of the block |
| Sha1Example.AbcDigest | addons/nthash_AD_attribute/src/sha1.c:71-301 | the digest of "abc" is the published one, A9993E36 4706816A BA3E2571 7850C26C 9CD0D89D |
| Sha1Example.RegistersRecur | addons/nthash_AD_attribute/src/sha1.c:237-287 | the rounds run one recurrence: the new register follows from the last five, whatever the word operations |
| Sha1Example.WordsRecur | addons/nthash_AD_attribute/src/sha1.c:224-235 | the words from the sixteenth on are the shifted exclusive or of the four earlier ones, in a schedule of any length |
| Sha1Example.ConstantsAreRoots | addons/nthash_AD_attribute/src/sha1.c:209-215 | the four constants are the integer parts of 2^30 times the square roots of 2, 3, 5 and 10 |
| Sha1Example.ShiftsAreCircular | addons/nthash_AD_attribute/src/sha1.c:46-47 | the three shifts rotate every word by 1, 5 and 30 bits |
| Sha1Context.AddEight | addons/nthash_AD_attribute/src/sha1.c:163-176 | the two length words hold eight times the octets taken, until both wrap to zero at 2^64 bits |
| Sha1Context.Context.Reset | addons/nthash_AD_attribute/src/sha1.c:71-85 | the context of the empty message |
| Sha1Spec.PadZerosUnique | addons/nthash_AD_attribute/src/sha1.c:334-356 | the padding completes a block, and no other number of zero octets below a block's worth does |
| Cef.EventRoundTrip | src/mariadb_udf/syslog.c:156-187 | reading the text of an event gives back every header field and pair, if and only if no key but the first contains a space |
| Cef.ExtensionRoundTrip | src/mariadb_udf/syslog.c:176-183 | splitting at unescaped equals signs and then at the last space before each key recovers the pairs |
| Cef.FieldsRoundTrip | src/mariadb_udf/syslog.c:134-154 | splitting at unescaped bars recovers any header fields |
| Cef.UnescapeEscape | src/mariadb_udf/syslog.c:103-132 | unescaping undoes the escaping of every value |
| Cef.ValueEscapes | src/mariadb_udf/syslog.c:103-132 | escaping a value adds one character for each line feed, carriage return, backslash and equals sign, and changes nothing when there is none |
| Cef.HeaderEscapes | src/mariadb_udf/syslog.c:134-154 | the same for a header field, with backslash and bar |
| Cef.ValueStaysOnLine | src/mariadb_udf/syslog.c:110-119 | no escaped value holds a line break |
| Cef.ExtensionStaysOnLine | src/mariadb_udf/syslog.c:176-183 | nor does the extension, after any number of pairs |
| CefWriter.FormatCef | src/mariadb_udf/syslog.c:156-187 | in a buffer with room, what is written is the text of the event, and its extension has no line break |
| CefWriter.FormatCefValue | src/mariadb_udf/syslog.c:103-132 | appends the escaped value at the position and leaves what stands before it |
| CefWriter.FormatCefHeader | src/mariadb_udf/syslog.c:134-154 | appends the escaped header field at the position and leaves what stands before it |
| Syslog.FrameRoundTrip | src/mariadb_udf/syslog.c:77-101 | facility, priority, timestamp, host, application, process id and message are all read back from the frame, if and only if facility and process id are not negative, the priority has three bits, the host has no space, and the application name no bracket or colon |
| Syslog.PriBits | src/mariadb_udf/syslog.c:83 | the bitwise or of the shifted facility and any priority, split into its lower three bits and the rest |
| Syslog.OrBit | src/mariadb_udf/syslog.c:83 | bit by bit, the combined number has the bits of either operand, negative ones included |
| Syslog.FrameLayout | src/mariadb_udf/syslog.c:77-101 | the order of the frame's parts and the marks between them |
| Syslog.TagLayout | src/mariadb_udf/syslog.c:89-97 | the process id stands in brackets exactly when it is positive |
| Syslog.FormatSyslogMsg | src/mariadb_udf/syslog.c:77-101 | in a buffer with room, what is written is the frame |
| Lookup.Find | src/mariadb_udf/config.c:40-57 | the loop ends where the probes end on any table; on a sorted one with nothing exactly when no entry starts with the name, otherwise with the value of an entry that does |
| Lookup.ProbeMeetsBlock | src/mariadb_udf/config.c:40-57 | when the comparison is positive, zero and negative in three stretches, the search ends at the first probe into the middle one, which depends on its bounds and the table size alone, and at nothing when it is empty |
| Lookup.OwnValueIff | src/mariadb_udf/config.c:40-57 | in a sorted table a listed name gets its own value if and only if the entry at the first probe into the block of names it begins carries that value |
| Lookup.PrioritiesAreExact | src/mariadb_udf/config.c:63-73 | the priority table is sorted and every name of it gets its own value |
| Lookup.OnlyAuthIsWrong | src/mariadb_udf/config.c:75-102 | the facility table is sorted, a name of it gets its own value if and only if it is not "auth", and "auth" gets 10 |
| Template.ExpandString | go/detectparser/generic.go:143-179 | the loop appends the left-to-right meaning of the template, and ends on every template; what its references stand for is given by the next three |
| Template.NumberExpands | go/detectparser/generic.go:163-171 | the numeral of k, for every k below 10^9, expands to the k-th submatch, and to nothing when there is no such group or it took no part |
| Template.NameExpands | go/detectparser/generic.go:163-175 | any other name (one with a non-digit, a leading zero before more digits, or more than nine digits) expands to its replacement, and to nothing when there is none |
| Template.StrayDollarStays | go/detectparser/generic.go:143-162 | a dollar before the end, before a character that starts no name, before an empty name or before an unclosed brace is copied |
| Template.TemplateRoundTrip | go/detectparser/generic.go:143-179 | literals with doubled dollars, braced names and separated bare names expand to the literals and the looked-up values |
| Template.Extract | go/detectparser/generic.go:92-141 | succeeds exactly on a reference, with its name, its index and what follows it |
| Template.ParseNumber | go/detectparser/generic.go:124-136 | an index exactly for decimal names of at most nine digits without leading zero, equal to the numeric value |
| Template.IndexFits | go/detectparser/generic.go:127-167 | twice an index plus one stays below 2^31 |
| Rotation.RunsConserveIffEdgeFree | go/cron/ip4log_cleanup.go:68-126 | over whole runs no row is lost or doubled, whatever the tie-breaking of each statement, if and only if no tie straddles an edge of the batches into which the old rows fall by end time |
| Rotation.ConservesIffTieFree | go/cron/ip4log_cleanup.go:74-110 | the same for one transaction and one edge |
| Rotation.IpLog.DoRotate | go/cron/ip4log_cleanup.go:59-127 | with failure possible at every point: only rows older than the cutoff leave the history, and as many reach the archive; they are the same rows when ties are broken alike or none straddles an edge; no turn follows one that failed or ended late; and if none did, no old row is left |
| Rotation.IpLog.MoveOneBatch | go/cron/ip4log_cleanup.go:68-126 | one transaction keeps all that, and goes on only if it has shortened the history |
| Rotation.BatchExists | go/cron/ip4log_cleanup.go:96-99 | every table has a batch for every cutoff and non-negative limit |
| Cleanup.AcctCleanup | go/cron/config.go:36-40 | under any failure newer sessions and log entries stay as they were, and every session left is one from before or one that was open and old, closed at the time of a turn; if closing fails at once the open sessions stay; without failure exactly the newer sessions and log entries remain, in order |
| Cleanup.Table.BatchStmt | go/cron/batch.go:10-37 | rows to keep are untouched, every row left is one from before or the changed form of a matching one; no turn follows one that failed or ended late, and if none did, no row matches at the end; the count returned is the fall in matching rows, and falls short of it only when an execution took effect and lost its count |
| Cleanup.ExecutionSpares | go/cron/window_batch_task.go:61-66 | one execution, whatever rows it takes, leaves the rows to keep in place and order |
| Cleanup.ExecutionProgresses | go/cron/batch.go:13-34 | one execution lowers the number of matching rows by the number it took |
| RequestHistory.History.Create | go/requesthistory/request_history.go:33-59 | refuses exactly the ids held; otherwise the id joins the accepted ones, and ring, index and object identity stay consistent |
| RequestHistory.History.All | go/requesthistory/request_history.go:93-102 | the last min(accepted, size) ids, newest first, across wrap-around and partial fill |
| RequestHistory.HistoryIterator.Next | go/requesthistory/request_history.go:119-142 | every call after the first moves one position back round the ring; nothing is returned exactly on an empty position and on coming round, so the first end comes after the last request held |
| RequestHistory.History.GetRequestByUuid | go/requesthistory/request_history.go:61-70 | finds exactly the ids among the recent ones |
| RequestHistory.AcceptKeepsRing | go/requesthistory/request_history.go:49-56 | after an acceptance the ring holds the last ids, each where it was put |
| RequestHistory.IndexedIffRecent | go/requesthistory/request_history.go:81-87 | an id is in the index exactly when it is among the last accepted |
| RequestHistory.NoIdTwice | go/requesthistory/request_history.go:33-59 | no id is held at two positions |
| RequestHistory.NewRequestHistory | go/requesthistory/request_history.go:18-31 | refuses exactly the sizes that are not positive |
| TryableOnce.OnceIsSafe | go/tryableonce/once.go:15-42 | in every state of every run two functions never run at once, none runs after a success, at most one succeeds, and nil is returned only after it |
| TryableOnce.PanicIsFinal | go/tryableonce/once.go:21-29 | after a function has panicked no function runs and no call returns nil, for ever |
| TryableOnce.CanTryAgain | go/tryableonce/once.go:15-42 | whenever the flag is 0 a call can run its function, and a failure leaves the flag at 0 |
| TryableOnce.OthersWait | go/tryableonce/once.go:31-39 | over every stretch of a run in which a function is running, no other call returns |
| TryableOnce.AnswersAreTrue | go/tryableonce/once.go:15-42 | a call is told to retry only on finding the flag at 0, of a failure only if its own function has failed, and nil only with the flag at 2 |
| TryableOnce.SuccessIsFinal | go/tryableonce/once.go:17-19 | after a success a call can return nil at its first look, with nothing else changed |
| TryableOnce.LoserIsToldToRetry | go/tryableonce/once.go:31-33 | a call that lost the swap to a function that has failed can return with the demand to retry |
| Query.MakeFilter | go/caddy/api/query.go:23-125 | yields a closure that agrees with direct evaluation on every attribute, or the first failure |
| Query.LeafMeans | go/caddy/api/query.go:23-77 | a leaf matches exactly when the lower-cased value equals, differs from, occurs in, begins or ends the name or the vendor, as its op and field say |
| Query.Connectives | go/caddy/api/query.go:78-121 | one more child widens an "or" by what it matches and narrows an "and" to it; without children "or" matches nothing and "and" everything; "not" is the opposite of its first child |
| Query.RefusedBecause | go/caddy/api/query.go:23-125 | which failure an unknown op, an unknown field and a "not" without a child give |
| Query.FailsIffBadNode | go/caddy/api/query.go:23-125 | a query is refused if and only if some node that is compiled (the first child of a "not", every child of "and" and "or") has an unknown op or field, or is a "not" without a child |
| Query.FirstFailureIsFirst | go/caddy/api/query.go:84-121 | the failure reported is that of the first such node in the order of compilation |
| Query.CompileChildren | go/caddy/api/query.go:84-121 | the children's closures in order, or the first child's failure |
| Query.FilterAttributes | go/caddy/api/radius_attributes.go:24-33 | the items that satisfy the filter, in order, none missing |
| Query.Search | go/caddy/api/radius_attributes.go:24-33 | the attributes matching the query, in order; all of them without a query |
| Tokens.MemTokenBackend.TokenInfoForToken | go/api-frontend/aaa/mem_token_backend.go:26-43 | info is returned exactly within the timeout of the last renewal and within the maximum after the creation of the info, and the reported expiry is the earlier of the two |
| Tokens.MemTokenBackend.TokenIsValid | go/api-frontend/aaa/mem_token_backend.go:21-24 | also true of a token past its maximum that was renewed within the timeout, which is where it and TokenInfoForToken disagree; never longer than the timeout past the maximum |
| Tokens.MemTokenBackend.TouchTokenInfo | go/api-frontend/aaa/mem_token_backend.go:67-71 | renews a live token only, and never moves the end of its life |
| Tokens.MemTokenBackend.StoreTokenInfo | go/api-frontend/aaa/mem_token_backend.go:61-65 | a token created and renewed now; other tokens keep their end of life unless they share the info |
| AuthorizationTable.TableAgrees | go/api-frontend/aaa/authorization.go:79-186 | on every path, the first match in the table of 98 entries makes the demand that the longest match makes |
| AuthorizationTable.NeedIsLongestMatch | go/api-frontend/aaa/authorization.go:323-341 | the role and suffix required for a path are those of its longest match, or SYSTEM when nothing matches |
| Authorization.AgreementIsFinite | go/api-frontend/aaa/authorization.go:323-335 | for any table, first match and longest match agree on every path if and only if they agree on the table's own prefixes |
| Authorization.FindNeed | go/api-frontend/aaa/authorization.go:325-341 | the scan yields the first match's role and suffix, or SYSTEM |
| Authorization.MoreRolesNeverDeny | go/api-frontend/aaa/authorization.go:280-302 | more admin roles never turn an allowed request into a denied one; they can only lift a denial for a lacking role |
| Authorization.RoleCheckIff | go/api-frontend/aaa/authorization.go:323-373 | the role check passes exactly when the method or the table gives a suffix and the path is open to everyone or the action is among the token's, a search counting as reading |
| Authorization.ReadersNeverChange | go/api-frontend/aaa/authorization.go:323-373 | a token whose roles only read is never allowed a changing request, unless the path is open to everyone or its entry has a suffix of its own |
| Authorization.ActionsComeFromRoles | go/api-frontend/aaa/token_backend.go:37-61 | a token's actions are exactly those of its own known roles, and the master action of a token of all tenants or of a server with one tenant |
| Authorization.AllowedStaysInTenant | go/api-frontend/aaa/authorization.go:304-321 | an allowed request of a token bound to one tenant is for that tenant |
| Authorization.SingleTenantReadsOpenConfig | go/api-frontend/aaa/authorization.go:402-421 | among several tenants, an allowed request of a single one into the configuration reads one of its four open parts |
| Authorization.SingleTenantIsConfined | go/api-frontend/aaa/authorization.go:389-400 | nor does it reach queues and services |
| Authorization.OneTenantIsNotConfined | go/api-frontend/aaa/authorization.go:375-421 | with one tenant only, a denial is for the method, the role or the tenant |
| Authorization.MasterAllowedIff | go/api-frontend/aaa/authorization.go:280-302 | a token of all tenants is held back by nothing but the role check |

## Left out

- CefWriter.FormatCef: truncation in a buffer that is too small is not modelled; the alternating argument array is a list of pairs.
- Syslog.FormatSyslogMsg: the same; and integers are unbounded, so that a shift of a facility beyond 28 bits does not overflow.
- Template.Extract: strings are sequences of characters, not of UTF-8 bytes; the flat array of submatch indices is a list of index pairs.
- AuthorizationTable.TableAgrees: that the places written beside the entries are those of the source is a matter of transcription.
- Tokens.MemTokenBackend.TokenIsValid: the cache's removal of expired entries is not modelled; it cannot be observed.
- GaleraProtocol: a node without data that starts a new cluster is assumed not to serve; loss of a disk, and partial erasure that keeps the data usable, are not modelled. Unreachable and disabled peers, which end a round, are part of its free choice to end.
- GaleraNodes: appending a node that is already in the list.
- TimedLock: timer pooling and the text of timeout messages; a panic on timeout is the same as returning the error.
- Cleanup: the bandwidth maintenance statements and the single-statement window jobs are instances of the same loop.
- RequestHistory: request messages and the log record handler.
- `Run` of ip4log and ip6log clean-up, which follows the rotation by a batched delete; ip6log is the same algorithm on other tables.
- The password filter's NTLM hash, sockets, HTTP, redis, pfconfig, firewall back ends, pfipset, the scheduler and the vendored servers.
