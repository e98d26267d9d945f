# A verified model of atv

`atv` is a command-line client for the Android TV Remote v2 protocol. This project models its
protocol logic in Dafny and proves what that logic promises, for every TV, every network and
every input. `dafny verify dfyconfig.toml` checks everything.

| file | models |
|---|---|
| `Varint.dfy`, `Framing.dfy` | the length-prefixed frames of `src/framing.rs`, from bit operations up to streams |
| `Handshake.dfy` | `SessionHandshake` and feature negotiation (`src/session.rs`) |
| `Network.dfy` | the world a session command meets, as a script of outcomes and durations, with a log |
| `Session.dfy` | `read_power`, `press_power_once`, `set_power`, `set_power_with_wake`, `wait_for_port`, `send_keys` |
| `Discipline.dfy` | the rules every command keeps on its log; keys and wake-up packets counted |
| `Reporting.dfy` | what a command reports against what it read |
| `Waking.dfy` | the wake-up fallback and the polling of the port, exactly |
| `ClosedLoop.dfy` | the command together with a TV whose power key is a toggle |
| `Observation.dfy` | which messages the loops consume and answer, by position |
| `Timing.dfy` | how long the commands take |
| `Secret.dfy`, `Pairing.dfy` | the pairing secret, the pairing handler and whole pairing runs (`src/pairing.rs`) |
| `WakeOnLan.dfy`, `Discovery.dfy`, `Keycodes.dfy`, `Text.dfy` | `src/wol.rs`, `src/discover.rs`, the keycode argument of `src/cli.rs`, and digits |

## How the pieces fit

Code that changes state is a class or a method with loops, and each method is proved equal to a
function of the old state. The lemmas then say what those functions mean, in terms that do not
mention them: messages by their fields, scripts by position, the secret by what is hashed, devices
by the services resolved, with the source's constants written out.

A session command runs against a `World`. Its script fixes, for every connection attempt, read,
write, probe and broadcast, the outcome and the duration; it is arbitrary, so a statement about
all scripts is a statement about all TVs and networks. Every operation is appended to a log, and
most results are about logs. Times are in milliseconds, and `Instant::now()` reads the script's
clock. A failed write is taken to deliver nothing.

`Discipline` states the rules of a session command as an observer that sees only the log: every
message is answered by the one reply it is owed before anything else happens; a power key is
written at most once in a session, after the grace period, and only if the session's own first
report is the opposite of the target; a new session follows an earlier one only after the
back-off; a magic packet goes out at most once and before any session. The drivers are proved to
keep the rules on every script, and the closed-loop results need nothing else about them.

In the closed loop a run interleaves the client's log with what the TV does: a written key is in
flight until it lands, which toggles the TV, or is lost, and the TV may change by itself. The TV
assumed for safety reports its true state as the first report of a connection, has settled any
key by then, and changes by itself only while no reported state can still be acted on.
Without the second assumption, that a key has settled by the next report, the command is safe
exactly for `off`, and for an `on` of a TV that begins on and does not drift (`LateSafeExactly`):
`off` writes at most one key, which is why it must not retry, and such an `on` writes none, while
every other `on` has a run that breaks (`LateKeyUndoes`). With it, a TV that does not drift ends
as wanted exactly when it began so or not every key written was lost, for on and off, with or
without a wake-up and with failing attempts (`EndsAsWanted`). For an on run without failing
attempts, which reads on only of a TV that is on, that is at most three lost keys (`Converges`);
`FourLostKeys` is a run with four.

## Where the code is followed rather than its comments

- `read_power` has no overall deadline (`ReadPowerHasNoDeadline`); what bounds it is the number of
  messages before the first report (`PumpTakes`, `PowerReadTakes`).
- Any error on the first read, a timeout too, is reported as a rejected certificate
  (`RejectedExactly`); the comment speaks of a closed connection.
- Any OK message of a known kind ends a pairing run successfully, not only `secret_ack`
  (`PairedExactly`; `PairedByConfigAck` is a run without one).
- `parse_mac` accepts a field such as `+a`, because the number parser accepts a plus sign.
- A keycode name that reads as a number, such as `5`, is the number (`SuffixParses`).
- The documented worst case of `on`, about 40 s, is just under 42 s plus handshakes and writes
  (`PowerSetTakes`): with reads of 3 s and nothing else it is exactly 41 996 ms (`SlowestOn`).

## Model

| member | source | states |
|---|---|---|
| Varint.AsU64 | src/framing.rs:10 | the cast of a body length below 2^64 to a 64-bit word keeps its value |
| Varint.MaskAndShift | src/framing.rs:12-13 | for every u64, masking with 0x7f and shifting by 7 are remainder and quotient by 128 |
| Varint.SetContinuation | src/framing.rs:18 | setting the top bit of a seven-bit group adds exactly 128 |
| Varint.OrIsAdd | src/framing.rs:26-29 | ORing the k-th group into the accumulator adds it at weight 128^k; nothing collides or is shifted out of the word |
| Varint.GroupRead | src/framing.rs:26-39 | one pass of the reader's loop: new value, continuation test and loop counter in arithmetic terms |
| Varint.CapTestAt | src/framing.rs:40 | the 64-bit comparison with the cap agrees with the numbers |
| Framing.WriteMessage | src/framing.rs:7-22 | succeeds exactly when the writer takes the whole frame, and then the base-128 prefix of the body's length and the body were written and nothing else; otherwise exactly as much of that as the writer took |
| Framing.PrefixByte | src/framing.rs:11-19 | byte i of the prefix is the i-th group of seven bits from the low end, with 128 added on all but the last |
| Framing.PrefixSize | src/framing.rs:11-19 | the prefix has as few bytes as the length needs |
| Framing.ByteSource.ReadExact | src/framing.rs:28-47 | a full buffer, or the way the stream ends (end of file, timeout or another error), depends only on the bytes still pending, not on how they are chunked or interrupted |
| Framing.ReadLength | src/framing.rs:25-39 | the bit-level prefix loop computes the arithmetic reading of the pending bytes and consumes exactly the prefix, at most five bytes; a stream that stops inside it gives its own error |
| Framing.ReadMessage | src/framing.rs:24-49 | the outcome, read errors included, and what stays unread are those of the first frame of the pending bytes, however they arrive |
| Framing.FirstFrameExactly | src/framing.rs:24-48 | the first frame of any bytes, by the bytes alone: the body behind a prefix that announces at most 1 MiB, with the rest untouched; too big, five unfinished prefix bytes, or the stream's own ending in exactly the other cases |
| Framing.DeliversByBytes | src/framing.rs:24-49 | such a body is decoded, giving the message or a decoding error, and what follows it stays unread either way |
| Framing.ScanAccepts | src/framing.rs:25-39 | a length is read exactly when the stream starts with a terminated prefix of at most five bytes spelling it |
| Framing.ScanPrefix | src/framing.rs:10-39 | a written prefix is read back with exactly its own bytes if the length fits the groups, and refused as too long otherwise, for every length |
| Framing.CanonicalPrefix | src/framing.rs:11-39 | the prefixes read as n are exactly the written one and its zero-padded continuations up to five bytes; the written one is the unique shortest |
| Framing.PrefixFree | src/framing.rs:26-39 | no accepted prefix is a proper prefix of another |
| Framing.WrittenFrame | src/framing.rs:7-48 | what any written frame reads as, in three exact cases: delivered up to 1 MiB, over the cap below 2^35, varint too long from there on |
| Framing.CutFrame | src/framing.rs:25-47 | a frame cut anywhere reads as the error the stream ends with |
| Framing.MessageRoundTrip | src/framing.rs:7-48 | for every codec, a written message comes back exactly when its body is within the cap |
| Framing.StreamRoundTrip | src/framing.rs:7-48 | any sequence of bodies within the cap is read back as the same sequence and the bytes after it stay unread |
| Framing.StreamTruncated | src/framing.rs:24-48 | a stream cut anywhere yields exactly its complete frames and then the error it ends with |
| Handshake.SessionHandshake.constructor | src/session.rs:11-32 | power unknown and the feature mask 547 |
| Handshake.SessionHandshake.Handle | src/session.rs:36-89 | by fields: a configure is answered with the ANDed code and the device info, a set_active with the mask, a ping with its own value, each with every other field absent; a start sets the power; an error alone is a protocol error; the first of these present decides |
| Handshake.AnswersByFields | src/session.rs:36-89 | the answer and next-state functions used by the session loops do exactly that |
| Handshake.Negotiated | src/session.rs:37-43 | over any run a set of feature bits survives exactly when it was active and every non-zero offer granted it |
| Handshake.NegotiationIsASet | src/session.rs:37-43 | the negotiated mask does not depend on the order or repetition of the messages |
| Handshake.NoBitRegained | src/session.rs:11-43 | no bit is regained and none outside the supported ones appears, for negative offers too |
| Session.ReadPower | src/session.rs:159-184 | result, handshake state and everything done to the world are those of the read loop on the script |
| Session.PressPowerOnce | src/session.rs:388-460 | result and world after connect, read, grace period, key and bounded wait |
| Session.SetPower | src/session.rs:332-366 | result and world after the retry loop |
| Session.WaitForPort | src/session.rs:495-512 | result and world are those of the polling that `Waking.PollExact` pins down |
| Session.SetPowerWithWake | src/session.rs:471-492 | result and world are those of the fallback that `Waking.WakeExactly` pins down |
| Session.SendKeys | src/session.rs:233-253 | the names returned and the world after the grace period, the keys and the settle time, as `Observation.KeysRunExact` states them |
| Discipline.PumpObeys | src/session.rs:168-183 | the read loop answers every message with exactly the one reply it is owed before reading on, writes no key, and its mask and report agree with the log |
| Discipline.AwaitObeys | src/session.rs:427-449 | so does the wait after the key, in which errors are ignored |
| Discipline.PressObeys | src/session.rs:388-460 | an attempt writes one power key exactly when it completes and says it changed something, and only 1 s after a report opposite to the target; if it says nothing changed, the session just reported the target |
| Discipline.PowerSetObeys | src/session.rs:332-366 | the rules hold over all retries, each 2 s after the session before; at most four keys for on and one for off; an error means no key was written; `changed` means one was; if not changed, the last session reported the target and that is the output |
| Discipline.PumpErrors | src/session.rs:136-179 | a session that fails is a rejected certificate or a protocol error, never an unreachable TV |
| Discipline.UnreachableOnlyFromDial | src/tls.rs:129-139 | `set_power` fails as unreachable exactly when its first connection attempt does, and then nothing else happened |
| Discipline.CommandObeys | src/session.rs:471-512 | the whole command keeps the rules on every script; failure means no key; `changed` iff a key; if not changed, the last session reported the target and that is the output; at most one packet, to the given address and only before any session, the next connect only after the port was up; `wol` iff one was sent |
| Discipline.CommandKeys | src/session.rs:100-113 | every key a power command delivers is a message with key code 26, direction 3 and no other field, and `Keys` counts exactly these |
| Discipline.CommandSetActiveFollows | src/session.rs:60-67 | every `set_active` written in a command carries its session's latest configure reply, or the supported features if there was none |
| Reporting.ObservedIsSeen | src/session.rs:393-453 | what an attempt observed is the last effective report read since its key, or since connecting; it reports that, or the target when it saw nothing |
| Reporting.MadeShape | src/session.rs:337-358 | an attempt is followed by another exactly when it completed, on was wanted and not observed, and fewer than four were made |
| Reporting.CompletedShape | src/session.rs:347-356 | only the last attempt made can be a failed one |
| Reporting.CompletedAreTrue | src/session.rs:394-459 | every completed attempt reports what it observed, else the target, and pressed no key only if it observed the target |
| Reporting.ReportIsTrue | src/session.rs:337-365 | error exactly when the first attempt errs; otherwise the last completed attempt's observation (else the target), and changed iff a completed attempt pressed |
| Reporting.MakesTheAttempts | src/session.rs:332-358 | the world after `set_power` is the one after its attempts with 2 s between them, and nothing else was done |
| Reporting.OnOrFourKeys | src/session.rs:337-358 | an on run without failing attempts ends having just read on, or has written four keys |
| Waking.PollExact | src/session.rs:495-512 | polling by position: failed probes 500 ms apart that begin before the deadline, then a success that begins before it too, or the deadline has passed; nothing else is done |
| Waking.PollSucceedsExactly | src/session.rs:495-512 | the port counts as up exactly when some probe that begins before the deadline would succeed |
| Waking.WakeExactly | src/session.rs:471-492 | the packet goes out exactly when on is wanted, a MAC is given, the first connect is unreachable and the broadcast works; the port is then polled for 15 s; if it comes up a new connect follows and the result is that of the attempts from there with `wol` set; if not, unreachable; a failed broadcast is a protocol error; otherwise it is one `set_power` |
| ClosedLoop.StepIsConsistent | src/session.rs:310-319 | every step the rules and the TV allow keeps at most one key in flight, only while the TV is not as wanted, and lands or writes no key on a TV that is |
| ClosedLoop.LoopInvariant | src/session.rs:310-319 | that holds over every interleaving of a log that keeps the rules with such a TV |
| ClosedLoop.ToggleSafety | src/session.rs:310-366 | no run of the command, stopped at any moment, writes or lands a key on a TV that is already as wanted |
| ClosedLoop.LateKeyUndoes | src/session.rs:310-319 | a TV that is off and applies a key after its next report can be turned off again by `on`, which reports on |
| ClosedLoop.OneKeyIsSafe | src/session.rs:310-319 | a log that keeps the rules and writes at most one key lands and writes none on a TV that is as wanted, however late keys are applied and even if the TV drifts |
| ClosedLoop.NoKeyWhenAsWanted | src/session.rs:324-326 | idempotence against late TVs: one that begins as wanted and does not drift is written no key |
| ClosedLoop.LateSafeExactly | src/session.rs:310-366 | with a TV that may apply keys late, all runs of the command stopped at any moment are safe exactly when off is wanted, or on of a TV that begins on and does not drift |
| ClosedLoop.KeysConserved | src/session.rs:404-410 | every key written is in flight, has landed or was lost, whether keys are applied late or not |
| ClosedLoop.OnStaysOn | src/session.rs:317-319 | a key that worked but was not confirmed is recognised by the next report: at most one key lands, and once on the TV stays on with none in flight |
| ClosedLoop.LegalEndsAsWanted | src/session.rs:303-358 | for every log that keeps the rules the TV ends as wanted exactly when it began so or not every key written was lost |
| ClosedLoop.EndsAsWanted | src/session.rs:303-512 | the whole command, on and off, wake-up and failing attempts included: once its keys have settled, a TV that does not drift is as wanted exactly when it began so or not every key written was lost |
| ClosedLoop.LateEndsAsWanted | src/session.rs:303-512 | with late keys the same condition decides for off and for a TV that begins as wanted; an on of a TV that is off ends on exactly when an odd number of keys is not lost |
| ClosedLoop.Converges | src/session.rs:303-358 | an on run without failing attempts, reading on only of a TV that is on, leaves the TV on exactly when at most three keys were lost |
| ClosedLoop.ReportIsTheTvs | src/session.rs:303-512 | an output that says nothing changed is the TV's state, settled and as wanted, even of a TV that drifted before it reported; otherwise, of a TV that does not drift, `EndsAsWanted` read against the report: the target is true exactly when the TV began so or not every key was lost, and its opposite exactly in the other case |
| ClosedLoop.FourLostKeys | src/session.rs:303-358 | four lost keys end an on run, none of whose attempts fails, with the TV off and on reported |
| Observation.PumpExact | src/session.rs:168-183 | `read_power` succeeds exactly when the first message that does not pass is a report and the replies owed before it could be written; it read exactly up to it and logged exactly that exchange |
| Observation.RejectedExactly | src/session.rs:136-152 | the certificate counts as rejected exactly when the very first read fails |
| Observation.PowerReadExactly | src/session.rs:136-184 | a refused connect is reported by its own kind; otherwise the power is read as `PumpExact` says, and a failure is a rejected certificate if nothing could be read and a protocol error if anything was |
| Observation.AwaitExact | src/session.rs:422-453 | after the key the observation is the last effective report read, reading stops at the first report of the target, and otherwise only at a failed read or the deadline |
| Observation.PressExactly | src/session.rs:388-460 | an attempt on every script: it fails as the reading did; does nothing if the target is reported; else waits 1 s and writes key 26 with direction 3, a failure being a protocol error; then observes the last report among the messages it reads until the target, a failed read or 5 s |
| Observation.SendFromExact | src/session.rs:236-246 | keys are written in order, spaced by 100 ms, up to the first that cannot be; success iff all were |
| Observation.KeysRunExact | src/session.rs:233-253 | `send_keys` on every script: it fails as the reading did; else, after 1 s, delivers messages with exactly (key, 3) for the first keys in order, 100 ms apart: all of them, 250 ms and their names, or up to the first failing write and a protocol error |
| Timing.AwaitIsBounded | src/session.rs:419-449 | the wait after the key is over before 5 s plus one read and one write have passed |
| Timing.UnconfirmedWaitsOut | src/session.rs:424-449 | a key is left unconfirmed only 5 s after it was written, or because a read failed |
| Timing.PumpTakes | src/session.rs:168-183 | the read loop consumes exactly the items up to the first that does not pass, or up to the one whose reply is the first write to fail, and takes the sum of their times and of one write for each that wants a reply |
| Timing.PowerReadTakes | src/session.rs:159-184 | `read_power` takes at most the connect, one read more than the messages that come before the first report, and one write for each of them |
| Timing.PressTakes | src/session.rs:388-460 | an attempt takes at most that, 1 s, the key write, and less than 5 s and one read and one reply |
| Timing.PowerSetTakes | src/session.rs:303-358 | on takes at most four attempts and 6 s of back-off, off one attempt; at most 41 996 ms for 3 s reads and nothing else |
| Timing.SlowestOn | src/session.rs:303-358 | four sessions that ping just before the deadline and then go silent make on take exactly those 41 996 ms |
| Timing.CommandTakes | src/session.rs:462-512 | on with a wake-up takes less than one failed connect, the packet, 16.5 s of polling and one on |
| Timing.WaitForPortIsBounded | src/session.rs:462-512 | at most 30 polls, over within 16.5 s, and not given up before 15 s |
| Timing.ReadPowerHasNoDeadline | src/session.rs:168-181 | for every length of time some TV with reads under 10 s keeps `read_power` busy for longer |
| Secret.StripIsMinimal | src/pairing.rs:11-14 | stripping leaves the shortest big-endian byte string of the same value |
| Secret.CanonicalInteger | src/pairing.rs:11-31 | stripping keeps the value, is idempotent, and gives equal results exactly for equal values |
| Secret.FixtureEncodings | scripts/gen-pairing-fixtures.py:38-41 | for positive values the stripped bytes are the fixtures' hex encodings, with a 0 in front where the digits are odd in number |
| Secret.MaterialIsHashInput | src/pairing.rs:62-67 | what is hashed is the shortest big-endian bytes of client modulus, client exponent, server modulus and server exponent, in this order, and the nonce |
| Secret.HashInputExample | src/pairing.rs:44-68 | for client (7, 3), server (5, 3) and the code AB1234 these are 07 03 05 03 12 34 |
| Secret.ComputePairingSecret | src/pairing.rs:44-76 | not six hex digits: pairing failure; no RSA key: protocol error; else the digest of those bytes if its first byte is the code's first two digits, high digit first, and a pairing failure if not |
| Secret.ComputedIsSecret | src/pairing.rs:44-76 | the function the pairing runs are stated with gives exactly that |
| Secret.AcceptedExactly | src/pairing.rs:49-75 | the accepted codes, without regard to case, are exactly hex of the digest's first byte and hex of a nonce giving that digest; all other strings fail as pairing failures |
| Secret.OneChecksum | src/pairing.rs:55-74 | for any keys and nonce exactly one checksum byte is accepted, the digest's first |
| Secret.ShownReadsBack | scripts/gen-pairing-fixtures.py:44 | printing a code and reading it back is the identity |
| Secret.SecretDependsOnValues | src/pairing.rs:16-31 | the secret depends on the certificates only through the values of their integers, however many zero bytes stand in front |
| Pairing.PairingFlow.Handle | src/pairing.rs:123-165 | by fields: a status other than 200 is a pairing failure; a request ack is answered with the options (six hexadecimal symbols, input role), options with the configuration, each with every other field absent; a configuration ack shows the code; a message of no known kind is a protocol error |
| Pairing.HandlesByFields | src/pairing.rs:89-165 | the handler functions the runs are stated with do exactly that, and the first message is the request of client atv |
| Pairing.Pair | src/pairing.rs:195-242 | result and everything sent and read are those of the driver on the script |
| Pairing.PairObeys | src/pairing.rs:195-242 | every run keeps the rules; `paired` exactly when the secret went out and one further accepted message of any known kind came, which was right after it |
| Pairing.PairRun | src/pairing.rs:123-241 | the secret is written at most once, only after an accepted configuration acknowledgement and a code whose checksum is accepted for the two keys; every message before the last had status 200 and a known kind; every write is, field by field, the request first and then options, configuration or the secret of these keys and this code; `paired` exactly when the secret was written and the last event is such a message |
| Pairing.PairedExactly | src/pairing.rs:204-241 | the exact condition on the script: request and replies can be written, the first message beyond the opening ones acknowledges the configuration, the code is accepted, the secret can be written, and one more message is accepted |
| Pairing.PairedByConfigAck | src/pairing.rs:160-241 | for every accepted code there is a paired run whose messages carry no `secret_ack` |
| Pairing.PairFailsFor | src/pairing.rs:195-242 | every failing run reports the error kind of its last event: failed write or read, bad status, unknown kind, unreadable code, missing certificate, refused code, and nothing coming after the secret |
| Pairing.ConformingRun | src/pairing.rs:204-241 | against a TV that answers in order with status 200 the writes are, field by field, request, options, configuration and, for an accepted code, its secret |
| WakeOnLan.SplitRow | src/wol.rs:9-17 | all fields are two long exactly when the separators are at every third place |
| WakeOnLan.ParseMac | src/wol.rs:7-21 | accepts exactly six fields of two hex digits, or plus and one, with single separators in any mix, and returns their values |
| WakeOnLan.PrintedMacParses | src/wol.rs:5-21 | printing any MAC with any separators and cases and parsing it gives it back |
| WakeOnLan.MagicPacket | src/wol.rs:25-31 | six 0xff bytes and then byte i is byte i mod 6 of the MAC; every slice is in bounds |
| WakeOnLan.PacketDeterminesMac | src/wol.rs:25-31 | the packet determines the MAC |
| Discovery.Chosen | src/discover.rs:45-52 | an address of the service, IPv4 exactly when it has one, none only if it has none |
| Discovery.YieldsExactly | src/discover.rs:43-62 | an event yields a device exactly when it resolves a service with an address: the full name without ._androidtvremote2._tcp.local., the first IPv4 address or else the first one, and the port |
| Discovery.KeyIsInjective | src/discover.rs:63 | the key determines host and port even if the host contains colons |
| Discovery.LessIsLexicographic | src/discover.rs:38 | keys are ordered lexicographically by code point |
| Discovery.TakenExactly | src/discover.rs:37-67 | what the loop takes arrives before the deadline and before the channel closes, and the next arrival would not |
| Discovery.BTreeMap.Insert | src/discover.rs:63 | the entries stay sorted and stand for the updated map |
| Discovery.Discover | src/discover.rs:37-73 | the output lists exactly the devices that some arrival taken in time resolves and no later one resolves again at their host and port, once each, in the order of host:port |
| Discovery.StoredIsLast | src/discover.rs:38-68 | a device is stored under a key exactly when it is the last one resolved for its host and port |
| Discovery.ListedExactly | src/discover.rs:25-73 | no host and port twice, exactly the last device for each, none lost, in strictly increasing key order |
| Discovery.ListedFromInfo | src/discover.rs:37-73 | the same stated on the resolved services themselves |
| Keycodes.AcceptedIsKnown | src/cli.rs:13-28 | a string is accepted exactly as a spelling of a known number, or, if of no i32, as a known name after upper-casing and putting KEYCODE_ in front where it is missing |
| Keycodes.NameParses | src/cli.rs:19-26 | a canonical name in any case parses to its code |
| Keycodes.SuffixParses | src/cli.rs:14-24 | an unprefixed name in any case parses to its code exactly when it is not some other number and does not itself start with the prefix |
| Keycodes.PrintedNameParses | src/session.rs:126-130 | printing and parsing are inverse on known codes, and an unknown code is refused |
| Keycodes.NameOrNumber | src/session.rs:126-130 | a code is printed as its name, or as its plain decimal form, by which unknown codes are told apart |
| Text.ParseI32Exactly | src/cli.rs:14 | what reads as an i32: an optional sign, zeros and the decimal form of a value in range |
| Keycodes.DigitNameIsANumber | src/cli.rs:14-18 | a digit name without prefix is taken as the number |

## Left out

- TLS, certificates, PEM files and the credential directory: connecting is one scripted outcome, a certificate one of unparseable, not RSA, or two integers.
- The protobuf encoding of message bodies: frames carry bytes, and a codec is a parameter.
- SHA-256: any function with 32 bytes of output; nothing is claimed about collisions.
- Session messages are modelled with the fields this client reads or writes; all others are ignored by the code.
- Error texts, tracing, timestamps, JSON, exit codes and argument plumbing; power is a boolean instead of the words on and off.
- `status` and `send_app_link`: one call on top of `read_power`, and the same shape as one key of `send_keys`.
- The keycode table: any table of distinct upper-case prefixed names for i32 codes.
- UDP sockets, the mDNS daemon, stdin and the trimming and Unicode lower-casing of the line read: parameters.
- Time spent computing between operations; the 3 s and 10 s socket timeouts appear only as the bounds of `Timing`, because they limit one system call and not one message.
- A connection's script is finite: reading past it finds the connection closed, so no single read loop is infinite (`ReadPowerHasNoDeadline` covers every finite length).
