# Verified models of the network programming library and servers

This Dafny 4.11 project models the parts of the repository that are algorithms, protocols or concurrent state machines,
and proves what they promise. `dafny verify dfyconfig.toml` checks all of it.

What is modelled, one module to a file:

| module | what it is |
|---|---|
| `Text`, `ByteOrder`, `Ring`, `Unp` | bytes, splitting a text at a separator, numerals; words in memory; indices into a ring; the constants of the common header |
| `IPv4Text`, `AtonText` | the two parsers of dotted quads and the IPv4 printer, against a definition by fields between dots |
| `IPv6Parser` | the character-driven IPv6 parser with its in-place shift, against a definition by pieces between colons |
| `IPv6Language` | the texts that the IPv6 parser accepts, exactly, against those of section 2.2 of RFC 4291 |
| `IPv6Printer` | the zero-run scan and the formatter |
| `IPv6RoundTrip`, `IPv6Canonical` | the printer writes texts of section 2.2 of RFC 4291, and the parser undoes the printer; which text it writes, told from the bytes of the address |
| `Checksum` | the Internet checksum with its 32-bit accumulator, against the one's-complement sum of RFC 1071 |
| `Rtt`, `DgSendRecv` | Jacobson's estimator in exact reals, and reliable request and reply over a lossy network |
| `AddrList` | getaddrinfo's linked list, cloned into while it is walked |
| `StrCli` | the non-blocking client with its two buffers and its half-close |
| `ReadLine` | the buffered `readline` and the byte-at-a-time one |
| `PoolServer` | the thread pool with a ring, a mutex and a condition variable |
| `PreforkServer` | the preforked server that passes descriptors to its children |
| `DgEcho` | the signal handler and the main loop that share a ring of datagrams |
| `PfKey` | the PF_KEY message builder and the walker that prints messages |

How the programs are modelled:

- A program that changes state in place is a method on arrays or a class with its fields. Its contract ties the new state
  to a function of the old one, or states outright what was promised; what the repository's documentation promises is
  then proved about that function.
- A single-threaded program meets the outside world through a script: the results of `read`, `write`, `select`, `recvmsg`
  and the alarm, one after another. The theorems hold for every script. The reader of bytes (`ReadLine.Descriptor.Read`)
  chooses freely how many bytes each read gives.
- A concurrent program is a state machine: a `State`, the `Event`s that can happen, `Enabled` and `Next`. Every
  interleaving is a run. An invariant `Inv` is proved to hold at the start and to be kept by every step, and a class with
  the program's variables performs each step, with `Now() == Next(old(Now()), e)`. Besides safety, progress is proved:
  left alone, every run ends at rest, with nothing left undone.
- What a theorem is about is tied to what comes in and goes out: the bytes of an address, the digits of a text, the events
  of a run, the reads and writes of a script, the offsets of a standard.
- C strings are Dafny strings up to the null. Bytes are the integers from 0 to 255. Widths are written out where they
  matter: the 32-bit accumulator of the checksum, the 8-bit fields of messages, 16-bit groups, 32-bit sequence numbers and
  time stamps, and the accumulator of `inet_aton`, which is 32 or 64 bits wide (`wide`).
- Byte order is a parameter of `Checksum` and `PfKey`.

Where the code and its own documentation or intention differ, the model follows the code, and the difference is a theorem:

- The comment of inet_pton6 promises the value 1 for the texts of section 2.2 and 0 for all others
  (Lab2017/libfree/inet_pton.c:131). The parser accepts those texts (`RfcTextsAccepted`) and three kinds more: groups of
  more than four digits, one colon after a last group, and "::" beside eight groups. `AcceptedTexts` says exactly which
  texts it accepts and what each means, `RfcExactly` that an accepted text is one of section 2.2 if and only if its fields
  between colons show none of the three, and `LongGroupAccepted`, `FinalColonAccepted` and `FullGapAccepted` give a text
  of each kind.
- The same comment says that "::" in a full address is silently ignored (Lab2017/libfree/inet_pton.c:134). It is not: what
  follows it is lost. `GapInFullAddress` says exactly when the comment is true, for every accepted text with "::" beside
  eight groups, and `GapIsNotIgnored` gives an address for which it is not.
- inet_ntop4 compares the room with the length of the text and forgets the null (Lab2017/libfree/inet_ntop.c:95): it
  writes one character too many if and only if the text takes up all the room (`InetNtop4`), as "0.0.0.0" does with seven
  characters of room (`SevenCharacters`).
- inet_aton differs from inet_pton4 on fewer than four fields, on empty fields and on fields that wrap around the
  accumulator. `DiffersFromPton4` says that there are no other differences, and `OneField`, `EmptyField` and
  `WrappedField` give a text of each kind.
- in_cksum is the checksum of RFC 1071 exactly when the sum of the words fits 32 bits (`CorrectExactly`), which every
  packet of up to 131074 bytes ensures, and no larger size does (`OverflowLimit`).
- The timeout exceeds a constant round-trip time only once a sample has been taken, or when the round trip is shorter than
  the initial three seconds (`TimeoutExceedsRoundTrip`).
- Sequence numbers repeat after 2^32 calls (`SequenceNumbersRepeat`), and then the echo of another call is taken for the
  reply if it comes first (`AnotherCallAnswers`); up to there the reply returned is for the very call.
- With three or more socket types the clones of an address come after it in reverse order, since each is inserted right
  after the original (`Group`). With two, the order is the one that the comment gives (`StreamThenDatagram`).
- str_cli returns as soon as the server has closed the connection, even when bytes from the server are still in the
  buffer: `ReplyLost` gives a run that loses a byte. Everything received has been shown exactly when the two pointers of
  that buffer are equal at the turn whose read finds the end of the data (`Client.TakeTurn`), and so it is in every run in
  which standard output takes all that it is offered (`AllShown`).
- readline returns the size of the caller's buffer when the line is cut short, not the number of bytes stored: exactly
  when the data, signals apart, begin with as many bytes other than newlines as there is room for (`CountReturned`).
  `CutLine` is such a text.
- The handler of the datagram server gives up on a ring that is exactly full, even if nothing more is waiting
  (`GivesUpWhenFull`, and `EightAtOnce` for an instance), so the last place of its histogram is never used
  (`HistogramIsTrue`).
- The datagram server makes its socket signal one call before it makes its reads not wait (Lab2017/sigio/dgecho01.c:48-49).
  A signal in between lets the handler in on a socket whose reads wait: it never returns, nothing is ever echoed, and it
  gives up with the datagram that fills the ring (`CaughtForGood`, `CaughtExactly`).
- sa_print shows the security parameter index without converting it from network order: the number printed is the one
  given exactly on a big-endian host, or when its bytes read the same both ways (`SpiPrinted`). For the index that main
  gives, a little-endian host prints another (`SpiOfMain`).
- The loop of print_sadb_msg does not end on an extension of length zero: it ends if and only if no header that it reaches
  has that length (`LoopEndsExactly`, `WalkEndsExactly`), and `StuckMessage` is a message on which it does not.

## Model

| member | source | states |
|---|---|---|
| Text.DigitValues | Lab2017/libfree/inet_pton.c:145-146 | the value of each digit is its place in the two tables of digits, and the printer's digits are the small ones |
| Text.OnlyHexDigits | Lab2017/libfree/inet_pton.c:145-146 | no other characters are digits |
| Text.NumeralExactly | Lab2017/libfree/inet_ntop.c:182 | a number has one numeral: digits and small letters of its value, with no zero in front of another digit |
| IPv4Text.DottedQuadMeaning | Lab2017/libfree/inet_pton.c:95-124 | the accepted texts are exactly four nonempty decimal fields of value at most 255, joined by dots, leading zeros of any length allowed; the octets are the values of the fields |
| IPv4Text.DottedQuadExactly | Lab2017/libfree/inet_pton.c:95-124 | the same with the four texts written out: decimal digits, one at least, of the value of the octet, with three dots between |
| IPv4Text.RejectField | Lab2017/libfree/inet_pton.c:104-118 | a field that is too large, holds another character, is empty before a dot, or is a fifth one spoils every text that it begins, so that giving up at that character is right |
| IPv4Text.InetPton4 | Lab2017/libfree/inet_pton.c:86-125 | the scan returns true for exactly those texts, stores the four octets at the given place and nothing else, and otherwise leaves the destination alone |
| IPv4Text.InetNtop4 | Lab2017/libfree/inet_ntop.c:85-101 | stores the text and its null, or nothing, as the comparison of the length with the size decides; it writes past the size if and only if the text is as long as the size |
| IPv4Text.SevenCharacters | Lab2017/libfree/inet_ntop.c:95-99 | a text as long as a room of seven, past which its null is written |
| IPv4Text.PtonOfNtop4 | Lab2017/libfree/inet_ntop.c:85-101 | inet_pton4 undoes inet_ntop4 on every address, and no text is longer than 15 characters |
| IPv4Text.QuadTextExactly | Lab2017/libfree/inet_ntop.c:91-94 | the text printed is the one that inet_pton4 reads as the four octets and that has no zeros in front of its numbers |
| AtonText.InetAton | Lab2017/libfree/inet_aton.c:22-75 | stores the address in network order where the caller gave a place for it, and nothing for a text that it refuses; the address always fits 32 bits |
| AtonText.ScanAddress | Lab2017/libfree/inet_aton.c:28-72 | the scan accepts up to four possibly empty fields of digits whose value modulo the width of the accumulator is at most 255, and computes the address moved up for missing fields |
| AtonText.AddressExactly | Lab2017/libfree/inet_aton.c:28-72 | a text is accepted if and only if it has at most four fields, of decimal digits only, each of a value modulo the width of the accumulator of at most 255; and the bytes stored are those values from the left, and then zeros |
| AtonText.AgreesWithPton4 | Lab2017/libfree/inet_aton.c:28-72 | on every text that inet_pton4 accepts, inet_aton succeeds and the bytes htonl stores are the same four octets |
| AtonText.DiffersFromPton4 | Lab2017/libfree/inet_aton.c:42-58 | inet_pton4 accepts a text if and only if inet_aton does and it has four fields, none empty and none wrapping around |
| AtonText.OneField | Lab2017/libfree/inet_aton.c:66-72 | a text of one field that inet_aton accepts and inet_pton4 does not |
| AtonText.EmptyField | Lab2017/libfree/inet_aton.c:46-58 | a text with an empty field that inet_aton accepts and inet_pton4 does not |
| AtonText.WrappedField | Lab2017/libfree/inet_aton.c:42-45 | a field of 2^32 + 1 that a 32-bit accumulator takes for 1 |
| IPv6Parser.ShiftTail | Lab2017/libfree/inet_pton.c:205-218 | the overlapping shift, downward from the end, turns prefix and suffix into prefix, zeros and suffix when fewer than 16 bytes are there, and loses the suffix when there are 16 |
| IPv6Parser.ScanColonAfterGroup | Lab2017/libfree/inet_pton.c:175-190 | a colon after a group stores it if two bytes fit, and otherwise the text stands for no address |
| IPv6Parser.ScanDot | Lab2017/libfree/inet_pton.c:191-197 | at a dot the text stands for an address exactly if the rest from the current piece on is a dotted quad that fits |
| IPv6Parser.ScanEnd | Lab2017/libfree/inet_pton.c:199-204 | at the end of the text the last group is stored if there is one and it fits |
| IPv6Parser.TakeHex | Lab2017/libfree/inet_pton.c:167-174 | one more digit makes the group 16 times larger and the digit more, and a group of more than 65535 means that the text stands for no address |
| IPv6Parser.TakeColon | Lab2017/libfree/inet_pton.c:175-190 | a colon after nothing makes the gap, after a group stores it in the buffer; a second gap, or a group that does not fit, means that the text stands for no address |
| IPv6Parser.TakeDot | Lab2017/libfree/inet_pton.c:191-197 | the dotted quad goes into the buffer, or the text stands for no address |
| IPv6Parser.StoreLast | Lab2017/libfree/inet_pton.c:199-204 | the last group goes into the buffer, if there is one, or the text stands for no address |
| IPv6Parser.ScanText | Lab2017/libfree/inet_pton.c:162-204 | the character loop leaves in the buffer the bytes and the gap of the definition by pieces between colons, and gives up only on texts that stand for no address |
| IPv6Parser.Deliver | Lab2017/libfree/inet_pton.c:205-223 | the gap is expanded and 16 bytes are copied out, or the destination is left alone |
| IPv6Parser.InetPton6 | Lab2017/libfree/inet_pton.c:140-224 | returns true and stores the address for exactly the texts that stand for one, and otherwise does not touch the destination |
| IPv6Language.AcceptedTexts | Lab2017/libfree/inet_pton.c:152-223 | a text stands for an address if and only if it is eight groups, or at most eight around "::", of hexadecimal numerals of any number of digits and value at most 65535, the last two perhaps a dotted quad, with perhaps one more colon after a last group; and the address is the one so written |
| IPv6Language.LeftGroup | Lab2017/libfree/inet_pton.c:184-187 | the groups of an accepted text up to "::" are the first bytes of the address, the high byte of each first |
| IPv6Language.RightGroup | Lab2017/libfree/inet_pton.c:205-218 | the groups after "::" are the last bytes, before the IPv4 tail if there is one |
| IPv6Language.GapAndTail | Lab2017/libfree/inet_pton.c:191-218 | the bytes between are zero, and the tail is in the last four |
| IPv6Language.RfcTextsAccepted | Lab2017/libfree/inet_pton.c:128-131 | every text of section 2.2 of RFC 4291, with "::" for one group or more and an optional IPv4 tail, is accepted and denotes the address that the section says |
| IPv6Language.RfcExactly | Lab2017/libfree/inet_pton.c:128-131 | a text is one of section 2.2 if and only if it is accepted and its fields between colons show no group of more than four digits, no single colon at the end and no "::" beside eight groups |
| IPv6Language.RfcForm | Lab2017/libfree/inet_pton.c:128-131 | whether an accepted text is one of section 2.2 can be told from any way of reading it: no other reading would make it one |
| IPv6Language.LongGroupAccepted | Lab2017/libfree/inet_pton.c:168-174 | an accepted text with a group of five digits, which section 2.2 does not have |
| IPv6Language.FinalColonAccepted | Lab2017/libfree/inet_pton.c:175-190 | an accepted text with a single colon at its end, which section 2.2 does not have |
| IPv6Language.FullGapAccepted | Lab2017/libfree/inet_pton.c:205-218 | an accepted text with "::" beside eight groups, which section 2.2 does not have |
| IPv6Language.GapInFullAddress | Lab2017/libfree/inet_pton.c:134 | for every accepted text with "::" beside eight groups, an IPv4 tail counting for two, with a colon at the end or without, what follows the gap becomes zeros; the documented reading holds if and only if it is all zero |
| IPv6Language.GapIsNotIgnored | Lab2017/libfree/inet_pton.c:134 | an address for which the comment that "::" is silently ignored is false |
| IPv6Printer.GroupWords | Lab2017/libfree/inet_ntop.c:132-134 | the bytewise copy makes the eight 16-bit groups |
| IPv6Printer.BestIsUnique | Lab2017/libfree/inet_ntop.c:135-156 | there is only one leftmost longest run of two or more zero groups (sections 4.2.2 and 4.2.3 of RFC 5952) |
| IPv6Printer.PrintsOneText | Lab2017/libfree/inet_ntop.c:135-187 | an address has only one text |
| IPv6Printer.LongestRun | Lab2017/libfree/inet_ntop.c:135-156 | the single scan finds it: no zero run is longer, none as long begins further left, and shorter ones than two groups are not taken |
| IPv6Printer.FormatGroup | Lab2017/libfree/inet_ntop.c:162-183 | one turn of the formatting loop appends the piece of its group, or the embedded IPv4 address, and nothing else |
| IPv6Printer.FormatText | Lab2017/libfree/inet_ntop.c:161-187 | the loop appends the text of the address within 39 characters |
| IPv6Printer.FormatLength | Lab2017/libfree/inet_ntop.c:122-187 | no text is longer than 39 characters, so the scratch buffer of 46 always suffices |
| IPv6Printer.InetNtop6 | Lab2017/libfree/inet_ntop.c:109-198 | stores the text and its null exactly when the destination has room for both, and otherwise leaves it alone |
| IPv6RoundTrip.PrinterWritesRfc | Lab2017/libfree/inet_ntop.c:132-187 | every text printed is one of section 2.2 of RFC 4291 and means the address printed |
| IPv6RoundTrip.ParseOfPrint | Lab2017/libfree/inet_ntop.c:109-198 | inet_pton6 undoes inet_ntop6 on every 16-byte address, in all cases of zero runs and IPv4 tails |
| IPv6RoundTrip.PrinterInjective | Lab2017/libfree/inet_ntop.c:109-198 | no two addresses print alike |
| IPv6Canonical.EmbeddedExactly | Lab2017/libfree/inet_ntop.c:174-175 | the embedded form is chosen if and only if the first ten bytes are zero and the next two 0xff, or the first twelve are zero and the next two are not |
| IPv6Canonical.PrintedQuad | Lab2017/libfree/inet_ntop.c:162-187 | the text has a dot exactly for those addresses, and is then "::ffff:" or "::" and the dotted quad of the last four bytes |
| IPv6Canonical.PrintedShort | Lab2017/libfree/inet_ntop.c:135-187 | for any other address with two zero groups in a row, the text is the plain numerals of the groups before and after the leftmost of the longest such runs, with "::" between |
| IPv6Canonical.PrintedLong | Lab2017/libfree/inet_ntop.c:162-187 | and for an address without, the plain numerals of all eight groups |
| ByteOrder.HighByteFirst | Lab2017/libfree/in_cksum.c:16-25 | a big-endian machine stores the high byte of a word first, a little-endian one the low byte |
| Checksum.OneMoreWord | Lab2017/libfree/in_cksum.c:16-19 | two more bytes add one word, read in the byte order of the machine |
| Checksum.OddByte | Lab2017/libfree/in_cksum.c:22-25 | an odd byte counts as if a zero followed it |
| Checksum.ClosedForm | Lab2017/libfree/in_cksum.c:16-31 | the checksum of RFC 1071 as a remainder of the sum of the words |
| Checksum.RfcExample | Lab2017/libfree/in_cksum.c:3-32 | the checksum of the example of section 3 of RFC 1071 |
| Checksum.OnesSumIsNorm | Lab2017/libfree/in_cksum.c:11-30 | deferring the carries gives the one's-complement sum that adds them at every step |
| Checksum.TwoFolds | Lab2017/libfree/in_cksum.c:27-30 | two folds suffice for every 32-bit sum |
| Checksum.OverflowLimit | Lab2017/libfree/in_cksum.c:7-25 | the accumulator is safe for every content of n bytes if and only if n is at most 131074 |
| Checksum.CorrectExactly | Lab2017/libfree/in_cksum.c:16-31 | the answer is the checksum of RFC 1071 if and only if the sum of the words fits 32 bits |
| Checksum.InCksum | Lab2017/libfree/in_cksum.c:3-32 | the loop, the odd byte and the folds compute it, on a machine of either byte order |
| Checksum.StoredChecksumVerifies | Lab2017/ping/send_v4.c:17-19 | storing the checksum in a zeroed field at an even offset makes the checksum of the packet 0 |
| Checksum.ByteOrderIndependent | Lab2017/libfree/in_cksum.c:16-31 | the checksums of the two byte orders are byte swaps of each other, odd lengths included, so that the bytes stored are the same (section 2 of RFC 1071) |
| Checksum.SendV4 | Lab2017/ping/send_v4.c:3-22 | the echo request has its type, identifier, sequence number, pattern and time in place, and its checksum verifies |
| Rtt.RttInfo.Init | Lab2017/lib/rtt.c:22-35 | the first estimate, and a first timeout of three seconds |
| Rtt.MinMax | Lab2017/lib/rtt.c:12-20 | an estimate below 2 gives 2, one above 60 gives 60, and one between stays |
| Rtt.WholeSeconds | Lab2017/lib/rtt.c:62-69 | the timer is the timeout to the nearest second |
| Rtt.RttInfo.Stop | Lab2017/lib/rtt.c:80-102 | the in-place update is Jacobson's, and the timeout is clamped to 2 to 60 seconds |
| Rtt.RttInfo.Timeout | Lab2017/lib/rtt.c:111-119 | the timeout doubles without clamping, and the fourth time is the last |
| Rtt.EstimateStaysInRange | Lab2017/lib/rtt.c:93-101 | whatever the samples, the mean stays within their range, and the deviation stays positive and within the larger of that range and its first value |
| Rtt.MeanOfSamples | Lab2017/lib/rtt.c:80-93 | the mean after any samples is the sum of an eighth of each, faded by an eighth with every later sample |
| Rtt.DeviationOfSamples | Lab2017/lib/rtt.c:93-99 | the deviation after any samples is the sum of a quarter of the distance of each from the mean before it, faded by a quarter with every later sample, and what is left of 0.75 |
| Rtt.EqualSamples | Lab2017/lib/rtt.c:93-99 | the closed form of mean and deviation after n equal samples |
| Rtt.EqualSamplesRto | Lab2017/lib/rtt.c:10 | the closed form of the unclamped timeout |
| Rtt.TimeoutExceedsRoundTrip | Lab2017/lib/rtt.c:10-35 | with a constant round trip r the unclamped timeout exceeds r if and only if a sample was taken or r is below 3 |
| Rtt.TotalWait | Lab2017/lib/rtt.c:62-119 | the whole-second timers of the copies of a request add up to at most 900 seconds |
| Rtt.Doubled | Lab2017/lib/rtt.c:111-119 | the timeouts of the four copies are r, 2r, 4r and 8r |
| DgSendRecv.StampDifference | Lab2017/rtt/dg_send_recv.c:90 | the difference of two 32-bit stamps is the time between them modulo 2^32 |
| DgSendRecv.Stamp | Lab2017/lib/rtt.c:46-54 | milliseconds since the base second, as long as they fit 32 bits |
| DgSendRecv.DgClient.Begin | Lab2017/rtt/dg_send_recv.c:26-54 | every call begins with a timeout between 2 and 60 seconds, no retransmissions and the next sequence number |
| DgSendRecv.DgClient.SendCopy | Lab2017/rtt/dg_send_recv.c:56-63 | one more copy is stamped and logged, and its timer is the timeout in whole seconds |
| DgSendRecv.DgClient.Expire | Lab2017/rtt/dg_send_recv.c:68-79 | a timeout gives up after the fourth copy, and otherwise sends another, at that moment, with the timer doubled |
| DgSendRecv.DgClient.Receive | Lab2017/rtt/dg_send_recv.c:81-86 | a datagram passes the filter if and only if it is the echo of a copy sent whose header has this sequence number, and the header taken is that copy's |
| DgSendRecv.Received | Lab2017/rtt/dg_send_recv.c:46-49 | what reaches the caller is the beginning of the data sent, as long as the data, the caller's buffer or the server's buffer after the header allows, whichever is least |
| DgSendRecv.DgClient.Accept | Lab2017/rtt/dg_send_recv.c:88-92 | the sample is the time since the very copy that was echoed left, and updates the estimate and the clamped timeout; the data handed on are the beginning of that copy's, as much as fits |
| DgSendRecv.DgClient.TakeEvent | Lab2017/rtt/dg_send_recv.c:66-92 | what each event does to a waiting call: an echo in time ends it, an alarm before the fourth sends one more copy at that moment and the fourth gives up, and nothing else is sent or changes anything |
| DgSendRecv.DgClient.AwaitReply | Lab2017/rtt/dg_send_recv.c:66-92 | the outcome, the event and the time are those that the script decides, and the log has exactly the copies that the script makes the call send, each with the time of its own event |
| DgSendRecv.OneOutcome | Lab2017/rtt/dg_send_recv.c:66-92 | every script decides at most one outcome, one copy answered and one event: a reply if and only if an echo with this sequence number comes before the fourth timeout, giving up if and only if the fourth timeout comes first, and waiting if and only if neither comes |
| DgSendRecv.OneDeparture | Lab2017/rtt/dg_send_recv.c:56-79 | and it decides at which event each copy leaves |
| DgSendRecv.SampleIsTimed | Lab2017/rtt/dg_send_recv.c:90 | the sample is the time between two events of the script, modulo 2^32: the one at which the copy that was answered left, and the one that brought the echo |
| DgSendRecv.DgClient.DgSendRecv | Lab2017/rtt/dg_send_recv.c:18-93 | for every behaviour of network and timer: the copies in the log are those that the script makes the call send, at most four, each at the time of its own event, all of this request, with timers r, 2r, 4r, 8r of at most 900 seconds in all, r being the timeout of the call before or three seconds; the outcome, the copy answered and the time are those that the script decides; the reply is the beginning of the request, all of it if it fits both buffers; the sample is the time between the events at which that copy left and its echo came, retransmitted or not; giving up asks for a fresh estimator |
| DgSendRecv.Session | Lab2017/rtt/dg_send_recv.c:18-93 | over every run of up to 2^32 calls, one after another, on a network that loses, repeats and reorders copies of any call, every call sends its copies when its script says and nothing else, ends as its script decides, and every reply is the beginning of its own call's request, as much as fits the buffers, with the time between the events at which its own copy left and the echo came |
| DgSendRecv.SequenceNumbersRepeat | Lab2017/rtt/dg_send_recv.c:32 | an earlier call has the same sequence number if and only if there were more than 2^32 calls |
| DgSendRecv.AnotherCallAnswers | Lab2017/rtt/dg_send_recv.c:86 | beyond that, for every log that holds a copy of the call 2^32 earlier, its echo is taken for the reply if it comes first |
| AddrList.GaClone | Lab2017/libgai/ga_clone.c:8-30 | the copy is linked after its original, the list stays a list in which no two nodes are the same or share a socket address, and the copy says what the original does without the flag |
| AddrList.VisitNode | Lab2017/libgai/ga_port.c:37-63 | the body of the loop turns a node into the node, or the node and its clone, that the specification says |
| AddrList.GaPort | Lab2017/libgai/ga_port.c:30-65 | the pass ends although it inserts while it walks; the list afterwards is linked without sharing and says what the specification of a pass says; the count is of the entries given a port |
| AddrList.PassExtendsGroup | Lab2017/libgai/ga_port.c:8-27 | a pass for a new socket type adds exactly one entry to the group of an address |
| AddrList.PassesMakeGroups | Lab2017/libgai/ga_port.c:8-27 | one pass for each of any number of distinct socket types gives every address with every type, grouped by address in the original order, and every pass counts every address |
| AddrList.GaPorts | Lab2017/libgai/ga_port.c:8-27 | ga_port on the list for any number of distinct socket types, one after another: the list afterwards shows every address with every type, grouped by address, and the counts add up to the number of types times the number of addresses |
| AddrList.GroupHasEachOnce | Lab2017/libgai/ga_port.c:18-27 | in a group every socket type occurs exactly once, with its own port and the address, family and protocol of the original, whose flags only the first entry keeps |
| AddrList.StreamThenDatagram | Lab2017/libgai/ga_port.c:11-16 | with stream and datagram the order is stream then datagram for every address |
| AddrList.ReadPort | Lab2017/libgai/ga_serv.c:14-15 | the port is the number that the leading digits say, cut to 16 bits |
| AddrList.GaServ | Lab2017/libgai/ga_serv.c:7-57 | the passes for a port number or a service name, TCP before UDP, and the error when nothing was found |
| AddrList.ServiceFound | Lab2017/libgai/ga_serv.c:15-57 | for addresses just found: without a socket type the passes make the groups; with one there is at most one pass, and it changes only ports; something is found exactly when there is a service and an address |
| AddrList.ServedList | Lab2017/libgai/ga_serv.c:15-49 | which entries a service gives, for any addresses: for a number, that port in every entry; for a name, its TCP port in stream entries and its UDP port in datagram entries; without a type asked for, one entry for each type that has a port, stream first; and there are none exactly if no port is offered for the type asked for |
| AddrList.Results.AiStruct | Lab2017/libgai/ga_aistruct.c:7-88 | the node goes to the end through the pointer to the pointer, with an address of its own, to be cloned if and only if no socket type was asked for |
| AddrList.FreeAddrInfo | Lab2017/libgai/freeaddrinfo.c:5-19 | every node and every socket address of the list is freed once, in order, and none is looked at after it was freed |
| AddrList.Resolve | Lab2017/libgai/getaddrinfo.c:132-164 | from the addresses found to the result: success if and only if there are addresses and either no service was named or it offers a port for the type asked for; without a service the addresses as they were found, with one the entries of `ServedList`; or the error code that the caller is promised, with all nodes freed |
| StrCli.RunValid | Lab2017/nonblock/strclinonb.c:27-123 | every turn keeps, for both directions, the bytes written and then the bytes held are the bytes read; an empty buffer begins at its start; the server has been sent what was written of standard input, and a FIN exactly when that has ended and all of it was written |
| StrCli.EveryRunValid | Lab2017/nonblock/strclinonb.c:22-123 | so it is from the empty buffers on, for every script of what select, read and write do |
| StrCli.TurnLedger | Lab2017/nonblock/strclinonb.c:28-122 | one turn in the terms of the reads and writes alone: everything read is held, up to the room there is; as many bytes leave from the front as the write took; each stream is written when ready or when something was just read for it; nothing is written after an error or the end of what the server sends; and the status says which it was |
| StrCli.TakenFromScript | Lab2017/nonblock/strclinonb.c:42-81 | in every run, the bytes taken in from standard input and from the server are all that the reads gave, in order, each read cut to the room in the buffer |
| StrCli.BlockedTurn | Lab2017/nonblock/strclinonb.c:42-122 | reads and writes that would block change nothing |
| StrCli.SelectWaitsForSomething | Lab2017/nonblock/strclinonb.c:28-39 | a full buffer has something to write, so that select never waits for nothing |
| StrCli.FinComesLast | Lab2017/nonblock/strclinonb.c:50-53 | there is at most one FIN, it comes last, and it is there if and only if standard input has ended and every byte of it was written |
| StrCli.NothingEverAfterFin | Lab2017/nonblock/strclinonb.c:105-122 | in every run nothing is sent after the FIN, not even a second one |
| StrCli.ShownOnReturn | Lab2017/nonblock/strclinonb.c:69-76 | the turn in which the client returns shows nothing more: what has not been shown by then is what the buffer holds |
| StrCli.ShownInTurn | Lab2017/nonblock/strclinonb.c:83-103 | what is read from the server is offered to standard output in the same turn, so that a turn in which all of it is taken leaves nothing pending |
| StrCli.AllShown | Lab2017/nonblock/strclinonb.c:64-103 | in every run in which standard output takes all it is offered and no call fails, everything received has been shown |
| StrCli.ReplyLost | Lab2017/nonblock/strclinonb.c:69-76 | a run that returns normally with a byte of the reply not shown |
| StrCli.Drains | Lab2017/nonblock/strclinonb.c:105-122 | after the end of standard input, as long as each turn writes a byte, every byte is written and the FIN sent in as many turns as there are bytes |
| StrCli.Channel.Put | Lab2017/nonblock/strclinonb.c:42-61 | the bytes of a read go behind those held |
| StrCli.Channel.Take | Lab2017/nonblock/strclinonb.c:89-103 | a partial write takes the bytes in front, and an emptied buffer starts again |
| StrCli.Client.ToSock | Lab2017/nonblock/strclinonb.c:105-122 | what goes out is what the buffer holds next, and the FIN follows if that was the last of it |
| StrCli.Client.TakeTurn | Lab2017/nonblock/strclinonb.c:28-122 | one turn of the loop on the arrays and pointers is one step of the specification; when it returns, everything received has been shown if and only if the two pointers of the buffer were equal before it |
| StrCli.Client.Loop | Lab2017/nonblock/strclinonb.c:27-123 | and so is every run |
| ReadLine.LineOfBytes | Lab2017/test/readline1.c:6-30 | a line ends with the first newline, or before it with the room or the data, and the rest is left to read |
| ReadLine.LineOfItems | Lab2017/test/readline1.c:6-30 | for any data with signals, errors and ends of file in them: the line is the bytes from the front up to the first newline, error, end or the room, and what is left is what comes after |
| ReadLine.SignalsTakenOut | Lab2017/lib/readline.c:13-17 | taking the signals out of data takes them out of each part of it |
| ReadLine.InterruptsDoNotMatter | Lab2017/lib/readline.c:13-17 | any number of signals anywhere changes neither the line nor the lines after it |
| ReadLine.CountReturned | Lab2017/lib/readline.c:28-49 | signals apart, the value is the number of bytes stored if and only if the data begin neither with as many bytes other than newlines as there is room for nor with fewer and then an error; it is the size of the buffer exactly in the first case, and -1 exactly in the second |
| ReadLine.EndingOf | Lab2017/lib/readline.c:33-48 | how a line ends can be told from the data before the call |
| ReadLine.CutLine | Lab2017/lib/readline.c:47-48 | a text of which two bytes are stored and three reported |
| ReadLine.SlowReadLine | Lab2017/test/readline1.c:6-30 | the byte-at-a-time loop delivers the line, the terminator and the value, and leaves the rest |
| ReadLine.LineReader.Fill | Lab2017/lib/readline.c:12-21 | the read into the buffer, of any number of bytes, keeps buffer and unread data together what they were, but for signals |
| ReadLine.LineReader.MyRead | Lab2017/lib/readline.c:8-26 | fetches the byte that a one-byte read would have fetched |
| ReadLine.LineReader.NextInto | Lab2017/lib/readline.c:33-40 | one turn of the loop: the next byte goes into the line, or the line is over |
| ReadLine.LineReader.FastReadLine | Lab2017/lib/readline.c:28-49 | for every split of the data into reads, the buffered version delivers the same line, terminator and value, and its buffer and the unread data are what the simple version leaves |
| ReadLine.LineReader.ReadLineBuf | Lab2017/lib/readline.c:51-57 | the bytes shown to the caller are those read and not used |
| ReadLine.DeliveredOnce | Lab2017/lib/readline.c:28-49 | what is delivered leaves no choice, so the two versions agree on all that the caller can see and on what they leave |
| PoolServer.StepKeeps | Lab2017/server/serv08.c:35-47 | every step of every thread keeps the invariant: the ring holds the connections accepted and not taken, in order; only the holder of the mutex is inside; a thread has the connection that it took; no sleeper is forgotten; the counts are right |
| PoolServer.RunKeeps | Lab2017/server/serv08.c:35-47 | so it holds in every state of every run |
| PoolServer.PutKept | Lab2017/server/serv08.c:39-44 | the put keeps the ring, and the program gives up if and only if 31 connections wait already |
| PoolServer.EmptyTest | Lab2017/server/pthread08.c:22 | the comparison of the indices tests exactly whether a connection waits |
| PoolServer.NoLostWakeup | Lab2017/server/pthread08.c:21-28 | when the mutex is free and a thread sleeps, the connections that wait are at most the threads signalled and still to get the mutex |
| PoolServer.NeverAllAsleep | Lab2017/server/pthread08.c:21-28 | while a connection waits, the main thread is at work or some thread is awake |
| PoolServer.NoSharing | Lab2017/server/pthread08.c:24-31 | no two threads have the same connection, and each has the descriptor that was accepted for it |
| PoolServer.TakenForGood | Lab2017/server/pthread08.c:24-31 | over every run, a connection once taken stays with its taker, and connections are taken in the order they were accepted |
| PoolServer.AcceptedInOrder | Lab2017/server/serv08.c:36-45 | in every run, the descriptors put in the ring, and then the one that the main thread still holds, are those that accept gave, in order; and the takers on record are the threads that took them |
| PoolServer.ServesTheAccepted | Lab2017/server/pthread08.c:24-31 | a thread that has the k-th connection took the k-th out of the ring, and has the descriptor that accept gave for the k-th time |
| PoolServer.ComesToRest | Lab2017/server/pthread08.c:19-34 | every step of the main thread or of the pool brings the pool closer to rest: without new connections and spurious wakeups a run has at most as many steps as the work that is left, whatever the interleaving |
| PoolServer.NothingWaitsAtRest | Lab2017/server/pthread08.c:21-28 | when only the world outside has a step to take, the main thread is in accept, the mutex is free, every connection has been taken, and all threads sleep |
| PoolServer.ClosesWhatItTook | Lab2017/server/pthread08.c:29-32 | in every run a thread has closed each connection that it took, but for the one that it has |
| PoolServer.Server.PutInRing | Lab2017/server/serv08.c:40-44 | the put on the shared array and index is the specified step |
| PoolServer.Server.TakeFromRing | Lab2017/server/pthread08.c:24-26 | the get on the shared array and index is the specified step |
| PoolServer.Server.Step | Lab2017/server/serv08.c:35-47 | every step on the shared memory keeps the invariant and is the specified one |
| PreforkServer.StepKeeps | Lab2017/server/serv05.c:43-81 | every step of the parent and the children keeps the invariant |
| PreforkServer.TableIsTrue | Lab2017/server/serv05.c:60-76 | the count of available children is the number with status 0, and status 1 means exactly one of: connection on the way, being served, byte not read yet |
| PreforkServer.NeverWithoutChild | Lab2017/server/serv05.c:54-59 | in every run, after an accept some child is available: the exit for want of one is never taken |
| PreforkServer.NoSharing | Lab2017/server/child05.c:41-47 | no connection is with two children, whether held for one by the parent, on its way, or being served, and each is with the child that was chosen for it, with its own descriptor |
| PreforkServer.ReceivedOnce | Lab2017/server/child05.c:41-47 | in every run a connection is received once, by the child that was chosen for it, with its own descriptor, and stays on record for that child |
| PreforkServer.ScanStopsInTime | Lab2017/server/serv05.c:70-80 | the count from select is used up exactly at the last child reported, so that the early exits leave none behind and the scan never runs off the table |
| PreforkServer.NeverStuck | Lab2017/server/serv05.c:44-47 | with no child available some child has a step to take, or select returns with a byte to read |
| PreforkServer.CountsKept | Lab2017/server/serv05.c:60-62 | the count of a child grows by one with every connection given to it, and with nothing else |
| PreforkServer.RunKeeps | Lab2017/server/serv05.c:43-81 | the invariant holds in every state of every run |
| PreforkServer.FirstFree | Lab2017/server/serv05.c:54-56 | the child chosen is the first with status 0 |
| PreforkServer.GivenToFirst | Lab2017/server/serv05.c:50-66 | a new connection, with the descriptor that accept gave, goes to the first child with status 0, and there is one |
| PreforkServer.AcceptedInOrder | Lab2017/server/serv05.c:50-66 | in every run the connections on record are those that accept gave, in order |
| PreforkServer.ComesToRest | Lab2017/server/serv05.c:43-81 | every step of parent and children but the report of a new connection brings the server closer to rest: without new connections every run is bounded, whatever the interleaving |
| PreforkServer.AllIdleAtRest | Lab2017/server/serv05.c:44-47 | when only a new connection can still happen, the parent is in select, and every child is available and has nothing on the way, nothing to serve and no byte unread |
| PreforkServer.ServesAll | Lab2017/server/child05.c:40-50 | in every run each connection that select reported is accepted, and a child has received those that it was counted for, and served those that it received, but for the one in between |
| PreforkServer.Server.AcceptOne | Lab2017/server/serv05.c:50-62 | the search and the marking in the table are the specified step |
| PreforkServer.Server.ScanOne | Lab2017/server/serv05.c:71-80 | one turn of the scan is the specified step |
| PreforkServer.Server.Step | Lab2017/server/child05.c:40-50 | every step of parent and children on the table and the pipes keeps the invariant and is the specified one |
| DgEcho.StepKeeps | Lab2017/sigio/dgecho01.c:48-73 | every step of the setup and the main loop, and the handler wherever its signal is let in, with reads that wait or do not, keeps the invariant |
| DgEcho.IndicesAgree | Lab2017/sigio/dgecho01.c:67-72 | iput is iget plus nqueue modulo the size, but for the lag of one between stepping iget on and counting down |
| DgEcho.SlotSpared | Lab2017/sigio/dgecho01.c:62-65 | however many datagrams the handler takes in while one is being sent, it leaves that one's slot alone |
| DgEcho.CopyKeeps | Lab2017/sigio/dgecho01.c:64-65 | what is sent is the oldest datagram not sent yet, with its own length and address, although its arguments and its data are fetched at different times |
| DgEcho.EchoedInOrder | Lab2017/sigio/dgecho01.c:57-73 | in every state of every run what was echoed is what was received, once and in order, from the first |
| DgEcho.ArrivedInOrder | Lab2017/sigio/dgecho01.c:85-105 | in every run what was received are the datagrams that the handler came upon, in order and with their senders, each cut to the size of a buffer; all of them until the handler gives up |
| DgEcho.NothingLeftAsleep | Lab2017/sigio/dgecho01.c:58-59 | the main loop sleeps only when everything received has been sent back |
| DgEcho.SendsAllAndSleeps | Lab2017/sigio/dgecho01.c:57-73 | from any state of any run the main loop, left alone, takes exactly seven steps for each datagram in the ring and one to find no more, and then sleeps with everything that had been received sent back; until then it always has a step to take |
| DgEcho.AbsorbKeeps | Lab2017/sigio/dgecho01.c:85-107 | the handler's loop puts every datagram in the ring, in order, and accounts for it |
| DgEcho.GivesUpWhenFull | Lab2017/sigio/dgecho01.c:86-87 | it gives up if and only if the datagrams waiting would fill the ring |
| DgEcho.EightAtOnce | Lab2017/sigio/dgecho01.c:86-87 | eight datagrams before the first test, with no more waiting, are all put in the ring, and the handler gives up |
| DgEcho.CaughtForGood | Lab2017/sigio/dgecho01.c:48-49 | in every run in which the handler was let in before the socket's reads were made not to wait, it never returns, nothing is ever echoed, and it gives up exactly with the datagram that fills the ring |
| DgEcho.CaughtExactly | Lab2017/sigio/dgecho01.c:48-49 | it comes to that exactly by a signal between the two calls |
| DgEcho.HistogramIsTrue | Lab2017/sigio/dgecho01.c:85-107 | otherwise it read fewer than QSIZE, so the index is in range and the last place is never used, and the histogram adds up to all datagrams received |
| DgEcho.CountsTheBatch | Lab2017/sigio/dgecho01.c:107 | one run of the handler adds one to the histogram, at the number of datagrams that it read |
| DgEcho.RunKeeps | Lab2017/sigio/dgecho01.c:48-107 | the invariant holds in every state of every run from the call that turns on the signal, those included in which it comes before the socket's reads are made not to wait |
| DgEcho.Echo.SigIo | Lab2017/sigio/dgecho01.c:78-109 | the handler on the shared array and counters is the specified one |
| DgEcho.Echo.ReadOn | Lab2017/sigio/dgecho01.c:85-105 | the handler on a socket whose reads wait, one datagram at a time |
| DgEcho.Echo.MainStep | Lab2017/sigio/dgecho01.c:48-73 | each step of the setup and the main loop is the specified one |
| DgEcho.Echo.Step | Lab2017/sigio/dgecho01.c:56-109 | every step keeps the invariant |
| PfKey.AddSa | Lab2017/key/add.c:67-77 | the security association extension, in place behind what was built |
| PfKey.AddAddress | Lab2017/key/add.c:79-97 | an address extension with its zero padding to eight bytes, for an address of any length, on hosts whose socket addresses begin with their length and on those where the family decides it |
| PfKey.SocketAddress | Lab2017/key/add.c:4-20 | the length of a socket address is its first byte or follows from its family |
| PfKey.SaLayout | Lab2017/key/add.c:67-77 | the bytes of the security association extension, at the offsets of RFC 2367 |
| PfKey.AddressLayout | Lab2017/key/add.c:22-97 | the bytes of an address extension: its length, its type, a prefix of 32 bits for IPv4 and 128 for IPv6, the address, zeros |
| PfKey.KeyLayout | Lab2017/key/add.c:99-107 | the bytes of the key extension |
| PfKey.HeaderLayout | Lab2017/key/add.c:53-66 | the bytes of the header |
| PfKey.ExtensionsInOrder | Lab2017/key/add.c:67-109 | the association, the source, the destination and the key, in this order |
| PfKey.AddKey | Lab2017/key/add.c:99-107 | the key extension with its padding |
| PfKey.SadbAdd | Lab2017/key/add.c:38-109 | the buffer holds the header and the four extensions, with the length that the header gives |
| PfKey.MessageLength | Lab2017/key/add.c:64-109 | each of the four extensions is of whole multiples of eight bytes, and with the header they add up to the length in the header |
| PfKey.KeyBytes | Lab2017/key/printsadbmsg.c:235-237 | the loop over the bits prints the bytes of the key |
| PfKey.PrintSadbMsg | Lab2017/key/printsadbmsg.c:241-297 | for every message: a wrong length or version is refused, and otherwise the walk shows the extensions one after another, to the end or for ever, as the specification of the walk says |
| PfKey.WalkExtensions | Lab2017/key/printsadbmsg.c:263-296 | the loop over the memory is the specified walk, whatever the extensions are |
| PfKey.WalkShows | Lab2017/key/printsadbmsg.c:265-296 | for every message, what is shown is the extension at each place that the pointer comes to, and the bytes to go are what the last of them leaves |
| PfKey.ShownFields | Lab2017/key/printsadbmsg.c:118-239 | what is printed of an extension, by the offsets of RFC 2367 |
| PfKey.LoopEndsExactly | Lab2017/key/printsadbmsg.c:265-296 | the loop ends if and only if no header that it reaches has length zero |
| PfKey.WalkEndsExactly | Lab2017/key/printsadbmsg.c:265-296 | and the walk comes to an end in just those cases |
| PfKey.StuckMessage | Lab2017/key/printsadbmsg.c:294-295 | a message of the right length and version on which the loop does not end |
| PfKey.TiledWalk | Lab2017/key/printsadbmsg.c:263-296 | a message of whole extensions is walked to its end, one extension after another, with nothing left |
| PfKey.WalkOfMessage | Lab2017/key/printsadbmsg.c:263-296 | the walk over the request shows the association, the source, the destination and the key, in this order and nothing else, and recovers the addresses and the key bytes (section 2 of RFC 2367) |
| PfKey.MessageAccepted | Lab2017/key/printsadbmsg.c:246-262 | the request has the length and version that print_sadb_msg looks for |
| PfKey.SpiPrinted | Lab2017/key/printsadbmsg.c:121-125 | the number printed is the one given if and only if the host is big-endian or its bytes read the same both ways |
| PfKey.SpiOfMain | Lab2017/key/add.c:180 | the index that main gives is printed as another number on every little-endian host |
| PfKey.BuildAndPrint | Lab2017/key/add.c:109-111 | for every pair of addresses of a known family and every key of whole bytes that fits the buffer, the message built is printed back in full, with nothing left over |

## Left out

- Sockets, fork, threads, signals, DNS, the services file, standard input and output: their results are parameters, script
  entries or events, as described above. Allocation succeeds.
- IPv6Language.RfcExactly: a dotted quad at the end may have leading zeros, as in section 2.2 of RFC 4291, which does not say how its numbers are written.
- Rounding of the float fields of the estimator: the arithmetic is over reals.
- DgSendRecv.DgClient.DgSendRecv: an alarm that goes off before sigsetjmp is not modelled; the script ends where a call would wait for ever.
- AddrList.ReadPort: a number too large for an int has no defined value in C; here it is cut to 16 bits like any other.
- AddrList.GaServ: the entries of the services file are parameters, and the names in it are not compared.
- AddrList.Results.AiStruct: Unix domain addresses, whose nodes have no port, are not modelled.
- AddrList.Resolve: the search for addresses and canonical names are not modelled, and neither are Unix domain addresses.
- The loops that end in err_quit or err_sys end in a state in which no step is enabled (`Quit`, `Overflow`, `NoneAvailable`,
  `ServerQuit`, `SystemError`).
- StrCli.Client.Loop: the local variables of str_cli are fields of `Channel` and `Client`, so that the sections of the loop can be methods of their own.
- ReadLine.LineReader.FastReadLine: one descriptor and one reader, as the static buffer of the source demands.
- PoolServer.Server.Step: a signal wakes one sleeper; more than one at a time is a signal and spurious wakeups. What a thread does with its connection is a single step.
- PreforkServer.Server.Step: children do not die, so the end of file on a pipe is not modelled.
- DgEcho.Echo.SigIo: the buffers of the slots are values, overwritten from the beginning, and errors of recvfrom other than blocking are not modelled.
- PfKey.PrintSadbMsg: the line with the fields of the header is left out; extensions other than associations, addresses and keys are shown by their type alone; what an extension would have the program read past the memory is shown as `Beyond`; and the method says that the loop goes on for ever instead of doing so.
- PfKey.BuildAndPrint: on a host whose socket addresses do not begin with their length, only for the families that salen knows, IPv4 and IPv6; for others it gives length 0, and the address printed is not the one given.
- PfKey.SadbAdd: the reply to the request is not modelled.
- IPv6 in `AddrList` has the family number of BSD systems; in `PfKey` it is a parameter. The socket headers themselves are not part of this model.
- Not modelled at all: the iterative, select and poll servers and clients, which serve one request after another from
  blocking calls; the web client; the daemon and the syslog programs; multicast, SNTP, SCTP and XTI programs, which wrap
  single system calls; the routing-socket and interface-listing programs, which copy kernel structures; and Lab2, Lab3 and
  Lab4, which are exercises built on the same library.
