# Models of gluetun components

Dafny models of the parts of gluetun that hold an algorithm or a protocol, with proofs about
them. `dafny verify dfyconfig.toml` checks the whole project.

## What is modelled

- **Base 58 encoding** (`Positional.dfy`, `Base58.dfy`): the encoder of key generation, with its
  one buffer, its high-water mark and its in-place translation of digits to letters. It is proved
  equal to the encoding of draft-msporny-base58, section 3, and the decoding of section 4 is
  proved to undo it. The size of the buffer follows from 256^30 < 58^41.
- **The status protocol of the VPN loop** (`VpnLoop.dfy`, `VpnProgress.dfy`, `VpnSignals.dfy`,
  `VpnHistory.dfy`, `VpnRuns.dfy`): the loop goroutine, its runners and any number of `ApplyStatus` callers as one
  interleaved step system, with callers that give up, runners that exit and crash retries. Safety is
  proved for every state of every run, and the table of status writes is exact. The code does not
  guarantee progress: for every position of the loop and of a caller it is proved exactly in which
  reachable states some continuation gets past it, and runs reach the places where none does. What
  is closed, drained, left behind, unreported or still offered in a state is told by the history of
  the run: a stopped loop restarts by itself and a leaving loop closes a closed channel after a
  runner that reported success within 100 milliseconds, and a drain never ends when the runner waits
  to send on `tunnelReady`, which only the inner select receives. A runner is free otherwise: what
  it does next is to send on `tunnelReady` or to report.
- **The token-bucket rate limiter** (`RateLimiter.dfy`): times and tokens are reals. The central
  result is an exact rule for what is admitted; the bound on every window, the invisibility of the
  sweep and the independence of clients follow from it.
- **The shell word splitter** (`CommandSplit.dfy`, `CommandLayout.dfy`): the mutually recursive
  methods over a shared buffer are proved equal to a one-character automaton for the quoting rules
  of POSIX.1-2017 Shell Command Language, sections 2.2.1 to 2.2.3, and the automaton to a grammar:
  every command is a layout of words, quotes, escapes and blanks, a layout that ends in something
  open, or one with a backslash before another character than a newline where a word would start,
  on which the loop of `split` never ends. What `split` does is proved for each.
- **The kernel module loader** (`KernelModules.dfy`): the depth-first load over a mutable map. It
  succeeds exactly when everything reachable is known, acyclic and accepted by the kernel, and after
  an error nothing has been called that its dependencies did not allow.
- **The SOCKS5 UDP router** (`UdpRouter.dfy`, `UdpRouterRuns.dfy`, `UdpRouterList.dfy`): three maps
  as an index over live associations. Invariants of every history are proved without assumptions;
  refinement of a plain list of associations is proved under distinctness of complete expected
  endpoints, which is also proved necessary.
- **SOCKS5 formats** (`SocksCodec.dfy`): requests, reply addresses and UDP datagrams of RFC 1928,
  sections 4, 6 and 7; parsers and printers undo each other in both directions.
- **The stateful firewall** (`Subnets.dfy`, `Redirections.dfy`, `FirewallRules.dfy`,
  `Firewall.dfy`): what is recorded against what is installed, with backend calls that may fail at
  any point. The rule backend is a multiset of rules; `Valid()` holds before and after every
  operation that does not panic, so on every history. Redirections on all interfaces can break the
  agreement or panic; it is proved exactly when.
- **The server list merge** (`ServerMerge.dfy`): the keyed override of built-in servers by kept
  persisted ones and the order of the result.

## How the models relate to the code

Code that updates state is modelled by methods with loops, over the fields or the array the code
updates. A method is proved against a function of its inputs or of the old state (`Encode`,
`Step`, `Automaton`, `Register`, `ParseRequest`, `Want`), and the lemmas are about that function.
Two goroutines and two mutexes meet in the VPN loop, so that component is a step system instead.

Where the code and its comments or messages differ, the model follows the code:

- `RedirectPort` documents that destination port zero removes a redirection. While the firewall is
  enabled the code installs and records a redirection to port zero (internal/firewall/redirect.go:11-12
  against 47-69); `ZeroRemovesExactly` says when a redirection is left.
- The merge logs that persisted servers with a timestamp in the future are ignored. The code goes
  on to merge the servers they keep (internal/storage/merge.go:48-51 against 65-70), which shows
  exactly when a last kept server is not built in (`KeptCountExactly`).
- `modProbe` marks the root module as loading in a local copy only, so a cycle through the root is
  found one level deeper (internal/mod/probe_linux.go:56).
- A loop whose context is done while `waitForError` waits ends without draining its runner
  (internal/vpn/helpers.go:20-24), and in no other case (`LeftBehindExactly`, `NeverDrained`).

## Model

| member | source | states |
|---|---|---|
| Base58.Base58Encode | internal/cli/genkey.go:27-66 | the in-place encoder returns the base 58 letters of section 3 for every byte string |
| Base58.PushByte | internal/cli/genkey.go:44-50 | one turn of the outer loop multiplies the number in the buffer by 256 and adds the byte; the carry stays at most 255 and ends at 0, the index never passes the leading-zero count, and all cells up to the new high-water mark are zero |
| Base58.PushData | internal/cli/genkey.go:36-51 | the buffer of the computed size ends up holding the number the data denotes in base 256, behind the leading zeros |
| Base58.TranslateDigits | internal/cli/genkey.go:59-65 | writing letters over the same buffer the digits are read from gives the letter of every original digit |
| Base58.SizeBound | internal/cli/genkey.go:36-38 | 256^n < 58^(n*555/406+1) for every n |
| Base58.BufferIsBigEnough | internal/cli/genkey.go:36-40 | every prefix of the data fits to the right of the leading zeros |
| Base58.NothingCarriedOut | internal/cli/genkey.go:45-49 | when the index reaches the leading-zero count there is nothing left to carry |
| Base58.EncodeMeaning | internal/cli/genkey.go:27-66 | the result is one '1' per leading zero byte, then the letters of the shortest base 58 number equal to the data in base 256 |
| Base58.RoundTrip | internal/cli/genkey.go:27-66 | the decoder of section 4 gives the data back |
| Base58.RoundTripBack | internal/cli/genkey.go:27-66 | every string over the alphabet is the encoding of what it decodes to, and decoding fails exactly on foreign letters |
| Base58.Injective | internal/cli/genkey.go:27-66 | different data have different encodings |
| Base58.ConvertInverse | internal/cli/genkey.go:27-66 | converting digits from any base to any other and back gives them back, leading zeros included |
| Base58.AlphabetCodes | internal/cli/genkey.go:28-29 | the alphabet has 58 letters, given by their character codes |
| VpnLoop.StepInv | internal/vpn/run.go:12-128 | every step of the loop, of a caller or of both keeps who holds which mutex, which runners may be alive and what status fits each position |
| VpnLoop.AtMostOneRunner | internal/vpn/run.go:75-126 | in every state of every run at most one runner is alive, and none while the status is Stopped |
| VpnLoop.StartFindsNoRunner | internal/vpn/run.go:110-113 | the start signal, after which waitError is not drained, is only taken when no runner is alive, and runners are only spawned then |
| VpnLoop.StatusOrder | internal/loopstate/apply.go:25-70 | which status is ever written over which: Running never over Stopped or Stopping, Stopping only replaced by Stopped or itself, Stopped only over Stopping and with no runner alive |
| VpnRuns.TableIsFull | internal/loopstate/apply.go:25-70 | every write that the table of StatusOrder allows happens in some run |
| VpnLoop.WritesAreAll | internal/loopstate/set.go:8-12 | the writes of that table are the only changes of the status |
| VpnSignals.FailureIsSignalled | internal/vpn/run.go:52-85 | in every run a failed setup, an early failure or a wait cut short is signalled as Crashed before the loop backs off, tries again or ends |
| VpnSignals.SuccessIsSignalled | internal/vpn/run.go:87-90 | a runner that is up is signalled as Running before the loop is in its select |
| VpnSignals.CrashIsWritten | internal/vpn/run.go:114-121 | a runner that exits later has Crashed written before the loop tries again |
| VpnSignals.SignalMeaning | internal/vpn/helpers.go:41-51 | a signal is handed to the caller in its select, dropped if the trigger finds none, and without a trigger becomes the status; the trigger is used up |
| VpnSignals.FailureIsAnswered | internal/vpn/helpers.go:36-47 | a caller in its select whose attempt fails can be handed Crashed next |
| VpnSignals.BackoffIsSignalled | internal/vpn/helpers.go:36-43 | in every reachable state a loop that backs off has used up its trigger |
| VpnSignals.StartIsOwed | internal/vpn/run.go:110-112 | a start that has just been taken is owed an answer, unless the loop is to end |
| VpnSignals.LeavesWhenDone | internal/vpn/run.go:15-21 | the loop only leaves for good once its context is done |
| VpnRuns.SetupFailureIsReported | internal/vpn/run.go:52-54 | a run in which a failed setup is reported to the caller that asked |
| VpnLoop.StoppedOnlyAfterDrain | internal/vpn/run.go:101-109 | before Stopped is written the loop has drained its runner, and none has been alive at any point since |
| VpnHistory.ClosedExactly | internal/vpn/helpers.go:27-32 | the waitError the loop holds has been closed if and only if the runner spawned last reported early; past the retries, if and only if it reported success |
| VpnHistory.StoppedUntilAsked | internal/vpn/run.go:114-119 | Stopped is only left by a request for Running, or by the crash branch after the runner spawned last reported success early |
| VpnHistory.LeavesAloneExactly | internal/vpn/run.go:91-124 | a stopped loop can leave Stopped by its own steps if and only if it still selects on a closed channel, or is on its way from there, and no caller holds a mutex it needs |
| VpnHistory.IdleRestartsExactly | internal/vpn/run.go:91-124 | in the select with both mutexes free that is if and only if the runner spawned last had reported success early |
| VpnRuns.StoppedRestartsAlone | internal/vpn/run.go:114-123 | a run in which a Stopped loop with no caller spawns a runner |
| VpnHistory.PanicsExactly | internal/vpn/run.go:95-100 | the loop closes a closed channel if and only if it leaves for good after the runner spawned last reported success early |
| VpnRuns.PanicIsReachable | internal/vpn/run.go:95-100 | a run in which it does |
| VpnProgress.LoopMovesExactly | internal/vpn/run.go:12-128 | some continuation takes the loop on from where it is if and only if it has not ended, does not drain a runner that cannot report from an open channel, does not offer stopped to nobody, and is not at a lock whose holder sends or is bound to |
| VpnProgress.CallerMovesExactly | internal/loopstate/apply.go:15-76 | some continuation takes a caller on from where it is if and only if it neither sends to a loop that no longer receives nor waits for loopMu behind a caller that does or is bound to |
| VpnProgress.DrainExactly | internal/vpn/run.go:95-106 | the loop can get past the drain of a stop or of its way out if and only if the runner can report or the channel is closed |
| VpnProgress.DrainStarvesExactly | internal/vpn/run.go:93-106 | such a drain can come to wait for ever if and only if the channel is open: the runner can come to its send on tunnelReady |
| VpnProgress.StarvedForever | internal/vpn/run.go:93-106 | no step ends that wait |
| VpnHistory.OfferedExactly | internal/wireguard/run.go:143-145 | the runner waits to send on tunnelReady if and only if the last of its sends has not been received |
| VpnHistory.ExitNeverEndsExactly | internal/vpn/run.go:93-109 | a loop on its way out never ends if and only if the runner waits to send on tunnelReady, or a stop has drained it and it had not reported success early |
| VpnHistory.StopNeverEndsExactly | internal/openvpn/stream.go:51-55 | the drain of a stop never ends if and only if the runner waits to send on tunnelReady |
| VpnRuns.ExitNeverEnds | internal/vpn/run.go:95-100 | a run of a clean start and stop after which shutdown never ends |
| VpnRuns.StopStarves | internal/vpn/run.go:101-106 | a run in which a stop is taken before the runner sends on tunnelReady and is never answered |
| VpnRuns.ExitStarves | internal/vpn/run.go:95-100 | a run in which shutdown does the same with nobody in a call |
| VpnProgress.CrashLockExactly | internal/vpn/run.go:114-115 | the crash branch can get past its lock if and only if the holder of loopMu neither sends a signal nor is bound to |
| VpnProgress.StopTakenExactly | internal/loopstate/apply.go:57-59 | a caller that sends a stop can still get it taken if and only if the loop is in its select |
| VpnProgress.StartTakenExactly | internal/loopstate/apply.go:37-39 | a caller that sends a start can still get it taken if and only if the loop is in its select or before its loop |
| VpnProgress.StuckForever | internal/vpn/run.go:95-115 | a sender that the loop no longer receives from stays one: it waits for the mutex the sender holds, or has left its select for good |
| VpnRuns.StuckByCrash | internal/vpn/run.go:114-115 | a run that ends with the loop waiting for loopMu while its holder waits to send a stop |
| VpnRuns.StuckByExit | internal/vpn/run.go:95-100 | a run that ends with the loop leaving while a caller waits to send a stop |
| VpnProgress.StoppedSendingExactly | internal/vpn/run.go:109 | the loop can get past its offer of stopped if and only if a caller still awaits it |
| VpnRuns.AbandonedIsReachable | internal/loopstate/apply.go:62-68 | a run that ends with that offer, no caller and the status Stopping |
| VpnProgress.StopAnsweredExactly | internal/loopstate/apply.go:61-67 | a stop that has been taken can be answered, without its caller giving up, if and only if the loop does not wait for a runner that waits to send on tunnelReady |
| VpnProgress.StartAnsweredExactly | internal/vpn/helpers.go:41-51 | a start that has been taken can still be answered if and only if the loop has not used up its trigger and is on its way to the signal |
| VpnRuns.DroppedIsReachable | internal/vpn/helpers.go:44-47 | a run in which the VPN runs and its answer was dropped before the caller was in its select |
| VpnHistory.LeftBehindExactly | internal/vpn/helpers.go:20-24 | a loop that has ended leaves a runner alive if and only if the context was done while it waited for the first error of the runner spawned last |
| VpnHistory.NeverDrained | internal/vpn/run.go:81-85 | from then on no continuation drains that runner |
| VpnRuns.RunnerLeftBehind | internal/vpn/helpers.go:20-24 | a run that ends that way |
| VpnHistory.ReportedExactly | internal/vpn/helpers.go:41-51 | with the VPN up and no call under way the status says Running if and only if the signal was received or written and no caller of before has overwritten it |
| VpnHistory.StoppableExactly | internal/loopstate/apply.go:51-59 | a VPN that is up can come to Stopped through a request, without its failing first, if and only if the status says Running |
| VpnRuns.UnreportedIsReachable | internal/vpn/helpers.go:44-47 | a run in which the VPN is up, its signal was dropped and the status stays Starting |
| VpnRuns.OverwrittenIsReachable | internal/loopstate/apply.go:41-48 | a run in which the signal was written and a caller that had given up overwrites it |
| RateLimiter.RateLimiter.constructor | internal/dashboard/auth/auth.go:34-41 | no buckets at first |
| RateLimiter.RateLimiter.Allow | internal/dashboard/auth/auth.go:43-77 | the new buckets and the answer are those of the specified step: sweep, then refill and charge, or a new bucket |
| RateLimiter.RateLimiter.Cleanup | internal/dashboard/auth/auth.go:48-55 | exactly the buckets idle for more than ten minutes go |
| RateLimiter.TokenBucket.Take | internal/dashboard/auth/auth.go:67-76 | refill up to the capacity, then admit exactly when a whole token is there |
| RateLimiter.AdmissionRule | internal/dashboard/auth/auth.go:43-77 | after any history a call is admitted if and only if, counting it, every window from an earlier admitted call of its client holds at most capacity + rate * length calls |
| RateLimiter.WindowBound | internal/dashboard/auth/auth.go:43-77 | in every history and every window [t1, t2] at most capacity + rate * (t2 - t1) calls of a client are admitted, across any number of sweeps |
| RateLimiter.SweepIsInvisible | internal/dashboard/auth/auth.go:48-55 | the answers are those of a limiter that never deletes a bucket |
| RateLimiter.ClientsAreIndependent | internal/dashboard/auth/auth.go:57-76 | the answers of a client are a function of the times of its own calls |
| RateLimiter.SweptExactly | internal/dashboard/auth/auth.go:48-55 | a call more than ten minutes after the last sweep leaves exactly the buckets used within ten minutes and its own, any other call leaves all |
| RateLimiter.InstancesAreProper | internal/dashboard/auth/auth.go:94-95 | both limiters of the dashboard meet the assumptions of these results |
| CommandSplit.Split | internal/command/split.go:19-55 | on every command the words, the error or the endless loop that the automaton predicts |
| CommandSplit.SplitWord | internal/command/split.go:58-88 | reads a word as the automaton does from a bare position |
| CommandSplit.HandleDoubleQuoted | internal/command/split.go:90-116 | as the automaton does between double quotes |
| CommandSplit.HandleSingleQuoted | internal/command/split.go:118-129 | as the automaton does between single quotes |
| CommandSplit.HandleEscaped | internal/command/split.go:131-143 | as the automaton does behind a backslash |
| CommandSplit.WordAt | internal/command/split.go:58-143 | reading a word moves forward |
| CommandSplit.PassProgress | internal/command/split.go:29-54 | every pass of the loop moves the index forward or returns, except at a word start on a backslash before another character than a newline, where it changes nothing |
| CommandSplit.TerminatesExactly | internal/command/split.go:29-54 | the loop returns exactly when no pass meets such a position, and then with what the automaton says |
| CommandSplit.BackslashDiverges | internal/command/split.go:35-43 | on a backslash before a letter no pass changes anything |
| CommandLayout.SplitExactly | internal/command/split.go:19-143 | for every layout: the words it lays out, the error of what is open at its end, or no return |
| CommandLayout.EveryCommand | internal/command/split.go:19-143 | every command is such a layout |
| CommandLayout.SplitLayout | internal/command/split.go:29-54 | words of plain, escaped, single-quoted and double-quoted pieces, separated by spaces, tabs, newlines and escaped newlines, come back |
| CommandLayout.SplitOpenFails | internal/command/split.go:37-39 | an open single quote, an open double quote or a last backslash fails with its error, within a word or not |
| CommandLayout.SplitDiverges | internal/command/split.go:35-43 | a backslash before another character than a newline, where a word would start, is where split never returns |
| CommandLayout.InnerAt | internal/command/split.go:97-113 | between double quotes a backslash before a dollar, backtick, double quote or backslash gives that character, before a newline nothing, and stays before any other |
| CommandLayout.BackslashAt | internal/command/split.go:131-143 | a bare backslash in a word gives the character behind it, or nothing for a newline |
| CommandSplit.SplitPrinted | internal/command/split.go:19-55 | splitting the blank-joined single-quoted printing of any non-empty list of words gives the list back |
| KernelModules.Loader.InitDependencies | internal/mod/load_linux.go:16-48 | ends on every map, succeeds exactly when everything reachable is known, acyclic and accepted by the kernel; an error names a reachable defect of its kind, in particular a real cycle; then the calls made are well ordered, a call that failed is the last one, and every new call is for a module reached from the path |
| KernelModules.Loader.InitAll | internal/mod/load_linux.go:33-38 | after the loop every dependency is loaded, and the modules marked loading are those from before; after an error no further call is made |
| KernelModules.Loader.InitModule | internal/mod/load_linux.go:50-53 | one call recorded, success as the kernel decides |
| KernelModules.Loader.ModProbe | internal/mod/probe_linux.go:51-68 | the same exact condition for the root; on success the calls have no repeats, every module comes after its dependencies, and the last one is the root unless it was ready; after an error the calls broke off where it arose |
| KernelModules.DoneIsLoadable | internal/mod/load_linux.go:22-25 | a module that has been loaded has no defect below it |
| KernelModules.WalkBelow | internal/mod/load_linux.go:33-45 | along any walk through the dependencies positions in the sequence of calls only go down |
| KernelModules.DependencyComesLast | internal/mod/load_linux.go:33-45 | loading a dependency never loads the module that needs it |
| UdpRouter.UdpRouter.RegisterAssociation | internal/socks5/udp_router.go:83-105 | binds a complete expected endpoint at once, else queues the association under the address of its control connection |
| UdpRouter.UdpRouter.UnregisterAssociation | internal/socks5/udp_router.go:108-130 | removes the entries of the association and its place in the queue |
| UdpRouter.UdpRouter.FindClientAssociation | internal/socks5/udp_router.go:187-223 | the bound association, else the oldest queued one that matches, which moves from the queue to the maps |
| UdpRouter.FirstMatch | internal/socks5/udp_router.go:201-208 | the first position whose expected endpoint matches |
| UdpRouterRuns.StepInv | internal/socks5/udp_router.go:73-233 | every operation keeps the queues in order of age, the pending and the bound apart, and the two endpoint maps in agreement |
| UdpRouterRuns.EveryHistory | internal/socks5/udp_router.go:73-233 | after any history no association is both pending and bound, a bound one has an endpoint it asked for, and every endpoint entry agrees with the id entry |
| UdpRouterRuns.BoundAsDeclared | internal/socks5/udp_router.go:94-97 | after any history an association that declared address and port is bound to these or not at all, any other to a source with the address of its control connection and with what it declared |
| UdpRouterRuns.BoundFromRegistration | internal/socks5/udp_router.go:94-99 | the former is bound from its registration on until it is unregistered |
| UdpRouterRuns.FindsNoneExactly | internal/socks5/udp_router.go:187-233 | a packet finds none if and only if its source is bound to none and every association pending from its address declared another address or port |
| UdpRouterRuns.FindsTheOldest | internal/socks5/udp_router.go:201-222 | otherwise the one bound to its source, or the first pending one that did not, which is bound to the source from then on |
| UdpRouterRuns.RegisteredAsDeclared | internal/socks5/udp_router.go:84-105 | a registration returns the next identifier and what was declared |
| UdpRouterRuns.BoundOnce | internal/socks5/udp_router.go:187-223 | an association is bound to at most one endpoint in its life |
| UdpRouterList.StepRefines | internal/socks5/udp_router.go:73-233 | a step of the three maps is a step of the plain list of live associations, with the same answer |
| UdpRouterList.RunRefines | internal/socks5/udp_router.go:73-233 | so is every history in which no complete expected endpoint is registered while already bound |
| UdpRouterList.RouterIsPlainList | internal/socks5/udp_router.go:187-223 | in these a packet goes to the association bound to its source, else to the oldest unbound one from that address that matches |
| UdpRouterList.SharedEndpointIsLost | internal/socks5/udp_router.go:108-116 | when two live associations share an endpoint and the older ends, packets no longer reach the younger |
| UdpRouterList.DistinctExactly | internal/socks5/udp_router.go:94-99 | distinctness holds if and only if, whichever association ends next, packets are routed as in the plain list |
| SocksCodec.DecodedIsPrinted | internal/socks5/socks5.go:314-370 | the datagram decoder accepts exactly the printed datagrams, each with one meaning |
| SocksCodec.AddressOnTheWire | internal/socks5/response.go:59-92 | address type 1 with 4 bytes, 4 with 16 bytes, or 3 with a length and a name, then the port with its high byte first |
| SocksCodec.DecodeErrors | internal/socks5/socks5.go:314-362 | which packets are refused with which error |
| SocksCodec.DatagramRoundTrip | internal/socks5/socks5.go:372-398 | decoding an encoded datagram gives source and payload back, and the overhead is at most 22 bytes |
| SocksCodec.EncodeUDPDatagramToBuffer | internal/socks5/socks5.go:372-398 | appends the datagram, or nothing for an invalid source |
| SocksCodec.WriteUDPDatagramSourceAddress | internal/socks5/socks5.go:400-425 | appends header, address type and address, or nothing and an error for an invalid address |
| SocksCodec.DecodeRequest | internal/socks5/socks5.go:478-538 | result and unread rest of the stream are those of the specified parser, also on errors |
| SocksCodec.Reader.ReadFull | internal/socks5/socks5.go:479-484 | all the bytes asked for, or an error at the end of the stream |
| SocksCodec.BindDataLength | internal/socks5/response.go:94-109 | the length for each address type |
| SocksCodec.EncodeBindData | internal/socks5/response.go:59-92 | the printed address, or the error for its kind; its length is the capacity reserved |
| SocksCodec.RequestRoundTrip | internal/socks5/socks5.go:478-538 | a header followed by the output of encodeBindData parses to the same command, address type, address and port, leaving exactly the remaining bytes |
| SocksCodec.ParsedIsPrinted | internal/socks5/socks5.go:478-538 | what parses is what prints to the bytes consumed |
| Subnets.WithoutCounts | internal/subnet/subsets.go:13-43 | the difference keeps the multiplicities of all but the given subnets |
| Subnets.FindMissing | internal/subnet/subsets.go:13-27 | the subnets of one list that are not in the other, in order |
| Subnets.FindSubnetsToChange | internal/subnet/subsets.go:7-11 | what to add and what to remove |
| Subnets.RemoveSubnetFromSubnets | internal/subnet/subsets.go:45-55 | one occurrence goes, nothing else changes |
| FirewallRules.Backend.Apply | internal/firewall/interfaces.go:28-55 | a call adds or removes its rule, or fails and changes nothing |
| FirewallRules.Backend.Restore | internal/firewall/iptables/atomic.go:32-57 | the saved rules come back, or the restore fails with no error returned |
| Redirections.RemoveRedirection | internal/firewall/redirect.go:80-91 | the removal inside the range loop panics exactly when a match lies beyond the end of the already shrunk slice, and otherwise removes exactly the matches |
| Redirections.KeyedIsRemovable | internal/firewall/redirect.go:80-91 | with one redirection per interface and source port it never panics for a named interface |
| Redirections.NamedIsReplaced | internal/firewall/redirect.go:29-69 | with named interfaces only, asking never panics, orphans nothing and replaces exactly the redirection of its interface and source port |
| Redirections.OrphansExactly | internal/firewall/redirect.go:51-60 | redirections leave the record while their rules stay if and only if the conflict removed is on all interfaces and one of its source port names an interface |
| Redirections.ZeroRemovesExactly | internal/firewall/redirect.go:11-69 | after asking for destination port zero a redirection of that interface and source port is left if and only if the firewall is enabled and either none was present to that port or one of the key was recorded before |
| Redirections.KeyIsFree | internal/firewall/redirect.go:93-121 | after the check and the removal no redirection has the interface and source port asked for |
| Redirections.UnnamedPanics | internal/firewall/redirect.go:80-91 | two requests from an empty record lead to one on which the removal panics |
| Redirections.UnnamedOrphans | internal/firewall/redirect.go:51-60 | with a third request in between it orphans one instead |
| Redirections.FirstClashMeaning | internal/firewall/redirect.go:93-114 | of several clashing redirections the first in the list is the one reported |
| Redirections.CheckRedirection | internal/firewall/redirect.go:93-114 | the first clashing redirection in the list decides: present if it has the same destination, else the conflict; none if nothing clashes |
| Firewall.Config.constructor | internal/firewall/firewall.go:38-58 | disabled, nothing recorded |
| Firewall.Config.SetAllowedPort | internal/firewall/ports.go:9-46 | the record gains the interface exactly on success; installed and recorded rules keep agreeing |
| Firewall.Config.RemoveAllowedPort | internal/firewall/ports.go:48-83 | the port is gone on success; after a failing call the interfaces whose rules are gone have left the record |
| Firewall.Config.RemoveFromInterfaces | internal/firewall/ports.go:69-77 | rule by rule the record follows what is installed |
| Firewall.Config.RedirectPort | internal/firewall/redirect.go:13-70 | for every interface name, port and record: exactly when it panics, what is recorded on success and on failure, and that the redirect rules stop being exact if and only if it orphans one |
| Firewall.Config.RemoveConflict | internal/firewall/redirect.go:51-60 | the rule of the conflict goes, from the record all that the removal selects, and rules and record part if and only if that is more than the conflict |
| Firewall.Config.RecordRedirection | internal/firewall/redirect.go:29-45 | the same record while disabled, where port zero removes |
| Firewall.Config.SetEnabled | internal/firewall/enable.go:10-40 | after enabling exactly the recorded rules are installed over the saved ones, written out by port, interface, address and family; an error leaves it disabled, and as long as restoring works the first rules are back |
| Firewall.Config.InstallAll | internal/firewall/enable.go:54-129 | on success every rule is there as often as the records ask |
| Firewall.Config.AllowInputPorts | internal/firewall/enable.go:181-193 | one rule for each recorded port and interface |
| Firewall.Config.RedirectPorts | internal/firewall/enable.go:195-205 | one rule for each recorded redirection |
| Firewall.Config.AllowOutboundSubnets | internal/firewall/enable.go:154-179 | for each recorded subnet one rule per default route of its family |
| Firewall.Config.SetOutboundSubnets | internal/firewall/outboundsubnets.go:12-36 | the exact multiset of subnets recorded afterwards, which are those asked for if and only if all that change are routed; a subnet with a default route of its family is recorded if and only if asked for; after an error, with only a first part of the new ones; without a failing call the rules stay exact |
| Firewall.Config.RemoveOutboundSubnets | internal/firewall/outboundsubnets.go:38-65 | the subnets with a route leave the record, whether or not the backend failed, and a rule is left over exactly if a call failed |
| Firewall.Config.AddOutboundSubnets | internal/firewall/outboundsubnets.go:67-94 | the subnets with a route enter the record up to the first failing call; the rules stay exact without one |
| Firewall.Config.AddOutboundSubnet | internal/firewall/outboundsubnets.go:69-92 | after a failing call outbound rules are too many exactly if some were before or this call added one |
| FirewallRules.GapsGrow | internal/firewall/outboundsubnets.go:38-94 | where outbound rules only become too many, they are exact after if and only if they were before and none has |
| Firewall.Config.UninstallSubnet | internal/firewall/outboundsubnets.go:43-58 | going on after errors, only rules of the subnet go, without an error all of them, and after one not all |
| Firewall.Config.InstallSubnet | internal/firewall/outboundsubnets.go:72-87 | one rule per default route of the family, or an error with no rule lost |
| FirewallRules.ReachedExactly | internal/firewall/outboundsubnets.go:26-36 | the recorded subnets become those asked for if and only if every subnet to add or remove has a default route of its family |
| FirewallRules.InstalledMeaning | internal/firewall/enable.go:154-205 | beside the saved and fixed rules: one for each recorded port and interface, each recorded redirection, at least one for a recorded subnet and every default route of its family, and none else |
| FirewallRules.UpdatedMeaning | internal/firewall/outboundsubnets.go:26-94 | a subnet with a default route of its family is recorded if and only if it was asked for, any other if and only if it was before |
| FirewallRules.AgreeIsUnique | internal/firewall/enable.go:154-205 | rules that agree with the same records are equal as multisets: changing step by step installs what a fresh enable installs |
| Firewall.Config.Perform | internal/firewall/enable.go:10-40 | after any history of calls with any backend calls failing, while enabled the port rules are exact, no recorded rule is missing, the redirect rules are exact if and only if none has been orphaned since enabling, and the outbound rules are exact if and only if no failed call since enabling has left one too many; with named redirections only no call panics and none is orphaned |
| ServerMerge.KeysEqualExactly | internal/models/server.go:83-93 | for VPN names without hyphens, keys are equal if and only if VPN, protocols and hostname are, or one hostname spells the missing protocol |
| ServerMerge.StringLessMeaning | internal/models/sort.go:27-40 | strings are compared at their first difference |
| ServerMerge.LessMeaning | internal/models/sort.go:17-42 | country, region, city, server name, number, hostname, ISP and VPN in this order, each increasing |
| ServerMerge.LessIsStrictOrder | internal/models/sort.go:17-42 | Less is a strict weak order in which servers are incomparable exactly when all eight fields agree |
| ServerMerge.Sort | internal/storage/merge.go:92 | a sorted permutation, tied servers in any order |
| ServerMerge.MergeProviderServers | internal/storage/merge.go:30-95 | the persisted data as it is when preferred or newer, else the built-in data with the merged servers, sorted |
| ServerMerge.CollectKept | internal/storage/merge.go:65-70 | the last kept server of each key |
| ServerMerge.Override | internal/storage/merge.go:75-85 | at the first built-in server of its key the kept server takes its place, and leaves the map |
| ServerMerge.AppendRest | internal/storage/merge.go:87-90 | the kept servers left are each added once, in any order |
| ServerMerge.EachKeyOnce | internal/storage/merge.go:65-90 | with distinct built-in keys the merge has each key of a built-in or kept server exactly once, the last kept server winning |
| ServerMerge.DistinctExactly | internal/storage/merge.go:65-90 | the merged keys are distinct if and only if the built-in keys are |
| ServerMerge.MergeAgain | internal/storage/merge.go:30-95 | merging the result again as the persisted data, then or later, gives the same servers, whether or not the built-in data is preferred |
| ServerMerge.KeptCountExactly | internal/storage/merge.go:47-70 | with persisted data from the future that is not marked preferred, and any other that is not used as it is, the merge has other servers than the built-in ones if and only if some last kept server is not built in |
| ServerMerge.MergeIsDetermined | internal/storage/merge.go:87-92 | whatever the map order and the sort do, two merges of the same data hold the same servers and tied servers at every position |

## Left out

- Liveness of the VPN loop under fair scheduling: the results say which continuations exist, not which are taken.
- VPN loop timing: the backoff time, the 100 millisecond timer and cleanup are steps that may happen at any moment; onTunnelUp, health checks, port forwarding and DNS are arbitrary callers of ApplyStatus.
- VPN runners: of a runner only its sends on tunnelReady and waitError are modelled. One that is not at a send may come to either at any moment, so a result that a continuation exists assumes that much of the runner; DrainStarvesExactly says when another continuation never ends.
- VPN loop grain: SetStatus locks, writes and unlocks in one step, and so does the switch of ApplyStatus from its write to its unlock; no other goroutine can see a state in between.
- RateLimiter.RateLimiter.Allow: real numbers stand for float64 and for durations in nanoseconds; the mutex makes calls atomic; the clock is an argument and does not go back in the histories.
- CommandSplit.Split: a command is a sequence of code units and not of runes decoded from UTF-8; every character with a meaning is ASCII, and all others are copied unchanged. The bytes the buffer is made with are reset before its first use. The endless loop is the returned value Diverges.
- KernelModules.Loader.InitModule: opening, decompressing and passing a file to the kernel is one outcome per path. A load passes no path twice and stops at the first error, so outcomes that change between calls would not add any.
- KernelModules.Loader.constructor: no module is marked loading at first, as getModulesInfo builds the map; reading modules.dep, modules.builtin and /proc/modules and findModulePath are not part of this model.
- UDP router: sockets, packet queues and buffer pools; identifiers do not wrap around at 2^64; the slices of pending associations are values, so the in-place shift inside append is not visible.
- SOCKS5 addresses: IP addresses are their bytes and a datagram destination is kept apart from its port; the text forms of netip and JoinHostPort are not part of this model. Writers do not fail.
- SocksCodec.EncodeBindData: an unsupported address type, on which the code panics, is excluded by its precondition; so it is for BindDataLength.
- FirewallRules.Backend.Apply: a call that fails changes nothing, although iptables runs one command for each family.
- Firewall.Config.RedirectPort: nothing is said about the state after a panic, in which the loop has overwritten a part of the shared backing array.
- Firewall.Config.InstallAll: the rules that do not depend on the modelled records (policies, loopback, established traffic, VPN server, local networks, user rules) are three fixed lists; flushing connections is left out. SetEnabled installs the same lists.
- Firewall.Config.RemoveOutboundSubnets: a subnet whose rules could not be removed leaves the record, as in the code, so after a failing call outbound rules are too many until the firewall is enabled again.
- SetVPNConnection: its interface rule is not replayed by enable, so it does not take part in the agreement.
- Lists of subnets and redirections are values; that append and removal share one backing array is modelled inside RemoveRedirection only.
- ServerMerge.Sort: the sorting algorithm of the standard library is not modelled, only that its result is sorted and a permutation.
- Merging all providers: one call of mergeProviderServers for each.
- Settings, provider tables, HTTP handlers, DNS, WireGuard and OpenVPN setup, netlink, sessions and password hashing: not part of this model.
