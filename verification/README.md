# goadb protocol verification

A Dafny model of the stateful parts of goadb, a client for the Android Debug Bridge, with proofs of
what they do over whole runs. `dafny verify dfyconfig.toml` checks everything.

Every imperative Go function is a method over mutable state (connections, reused buffers, local
files, the caller's slices). Its contract ties the result and the new state to a specification
function of the bytes still to come, or of the old state. The main results are lemmas about those
functions, over every input, every split, every schedule or every run.

| file | models |
|---|---|
| Bytes, Numbers, Strings | little-endian words and `int32` truncation; decimal and hexadecimal text; `strings.Split`, `Fields`, `TrimSpace` |
| Net | a connection whose reads return any fragment and whose writes may stop anywhere; `io.ReadFull`; error kinds |
| SyncConn, SyncFile, SyncCopy, SyncDir | the sync protocol: request frames through the reused `wbuf`, the chunk reader and writer, the copy loops, paged directory listings |
| HostConn | hexadecimal framing with the 4-byte `rbuf` that short messages alias |
| ShellTransport, Session | shell v2 packets; reader, stdin and caller goroutines as an interleaving transition system |
| CommandLine, Batching | quoting in place, joining, and the greedy batches of `mkdir` and `rm` |
| DeviceInfo, DeviceLines | the two parsers of `adb devices -l` lines, the printer of `cmd/adb`, and when the parsers agree |
| DeviceStates, DeviceWatcher | snapshots, diffs in any map order, and the watcher that reconnects |
| Progress | the progress filters of pushes, with percentages rounded to doubles |

`Net.Error` has one value per kind of error; `Wrapped(e)` is an error made with `%w`, so that it
differs from `e` for `==` and not for `errors.Is`. `Panic` stands for a run-time panic of the Go
program, which the model reaches where the code does.

Where the code and its comments or the protocol differ, the model follows the code:

- The end of the connection between two reads of one chunk is reported as a plain `io.EOF`, like
  the end of the file (wire/sync_file.go:45-49; `SyncFile.EofWithoutDone`). The copy loop of
  `PullFile` takes it for success exactly when a chunk was cut at a multiple of 64k
  (`SyncCopy.PullSuccess`, over every cut position and every ending).
- `PullFile` stops with success at an empty chunk (wire/sync_conn.go:391; `SyncCopy.PullOfCompleteStream`).
- `Read` panics exactly on a DATA or FAIL header that announces 2^31 bytes or more, whose size is
  negative as an `int32` (wire/sync_file.go:46, wire/sync_conn.go:258; `SyncFile.ReadPanics`).
- A host message panics exactly if its header is a minus sign and three hexadecimal digits other
  than 000 (wire/conn.go:187; `HostConn.NegativeLengthPanics`).
- The reader goroutine of a session panics exactly on an exit packet without data (session.go:209;
  `Session.ReaderPanics`, `Session.EmptyExitPanics`).
- The fields parser of device lines panics exactly on fewer than two words and on a later word
  without a colon (device_info.go:154-170; `DeviceInfo.FieldsPanic`).
- Sockets and block devices in listings are taken for directories (wire/filemode.go:18-29; `SyncDir.KindOfMode`).
- `parseDeviceStates` overwrites its error on every line, so an unknown state counts only on the
  last non-empty line (device_watcher.go:210; `DeviceStates.SnapshotError`, `DeviceStates.UnknownStateIsSwallowed`).
- Bytes that standard input delivers together with `io.EOF` are not forwarded, and close-stdin is
  sent as if they had been. While no write fails, input that has ended is lost in no other way
  (session.go:164-176; `Session.StdinIsForwarded`, `Session.InputIsLost`).
- `Rm` batches up to 32761 bytes, but `SendMessage` refuses more than 4096 (sync.go:153,
  wire/conn.go:92): its requests are all accepted exactly if the whole list fits into one message,
  so that batching never helps (`Batching.RmFitsExactly`). A first name above the limit makes both
  batchers issue a command without names (`Batching.EmptyBatch`).
- Empty arguments are not quoted and vanish from the command line (device.go:364; `CommandLine.TokensOfCommandText`).
- A line printed for a device without attributes is refused by the parser (`DeviceInfo.PrintedLineParses`).
- The two parsers of device lines read a line alike exactly if only blanks and tabs separate serial,
  state and the first attribute and every later word comes right after a space; other white space
  there ends up in a key, or makes one of them refuse the line (`DeviceLines.ReadingsAgree`).

## Model

| member | source | states |
|---|---|---|
| Bytes.Uint32OfPut | wire/sync_conn.go:316-348 | a number written as a little-endian word reads back as its low 32 bits, negative numbers included |
| Bytes.LittleEndian | wire/sync_conn.go:316-348 | the four bytes of a written number, least significant first |
| Bytes.PutOfUint32 | shell_transport.go:54-74 | every 4-byte word is the encoding of the number it reads as |
| Net.NetConn.ReadFull | wire/sync_file.go:44-49 | however reads are fragmented, io.ReadFull takes the next bytes up to the requested number, leaves the rest of the stream and of the buffer alone, and reports EOF, unexpected EOF or the network error by how much came |
| SyncProtocol.SyncConn.SendRequest | wire/sync_conn.go:325-348 | a wrong id or more than 64k writes nothing; an accepted call writes exactly id, length and data (a prefix of that if the write fails), whatever the reused buffer held; success is exactly an accepted call completely written; the buffer never gets below 8 bytes |
| SyncProtocol.SyncConn.SendDone | wire/sync_conn.go:316-321 | exactly DONE and the low 32 bits of the time reach the wire, or a prefix with an error |
| SyncProtocol.SyncConn.ReadNextChunkSize | wire/sync_conn.go:243-273 | the header read off the stream as DATA size, end, server error with its message, or assertion error, and the bytes used up, for every stream |
| SyncProtocol.ChunkAnswers | wire/sync_conn.go:243-273 | every chunk header: DATA alone is no error, DONE alone is the end, an unknown id is an assertion error that uses up the header, and a cut header or FAIL message is an error of the connection and not the end |
| SyncProtocol.FailIsRead | wire/sync_conn.go:257-268 | a complete FAIL is an error and uses up exactly itself: a missing file exactly if the device's words for it stand somewhere in the message, and otherwise the message |
| SyncProtocol.SyncConn.ReadStatus | wire/sync_conn.go:278-314 | status, error and bytes used up, for every stream; only OKAY is a success and takes exactly 8 bytes |
| SyncProtocol.StatusSuccess | wire/sync_conn.go:278-314 | on every stream a status is a success exactly if a whole header with OKAY comes |
| SyncProtocol.StatusAnswers | wire/sync_conn.go:292-313 | OKAY leaves what follows, FAIL becomes the device's message, any other id an error of its own, both with their message used up |
| SyncProtocol.CutStatus | wire/sync_conn.go:284-289 | a status that does not come is an error, and exactly when it counts as a connection reset |
| SyncProtocol.SendAll | wire/sync_conn.go:316-348 | any history of calls on one connection, rejected and failing ones included, puts one piece per call on the wire, in order: nothing for a rejected call, the frame for a successful one, a proper prefix for a failed write; without failed writes the wire is the frames of the accepted calls |
| SyncProtocol.CallIsRead | wire/sync_conn.go:316-348 | an accepted call is recovered from the wire exactly if it is no request named DONE and its time fits into 32 bits; otherwise another call is read |
| SyncProtocol.CallsAreRead | wire/sync_conn.go:316-348 | the bytes of a history of accepted calls determine the history, in order, and leave what follows untouched, exactly if this holds of every call |
| SyncProtocol.WireExamples | wire/sync_conn.go:316-348 | the identifiers, and frames byte by byte |
| SyncFile.SyncFileReader.Read | wire/sync_file.go:26-53 | in any state and for any buffer: the bytes delivered, the error, the carry-over count, the latched end and the stream are those of the reader's transition function, and the rest of the buffer is unchanged |
| SyncFile.ReadConserves | wire/sync_file.go:26-53 | one read, in any state, loses and invents nothing: what it delivers and what remains afterwards are what remained before; after the end nothing changes |
| SyncFile.ReadsConserve | wire/sync_file.go:26-53 | after any sequence of reads, on any stream (truncated and FAIL streams included), delivered bytes followed by the remaining payload equal the payload at the start |
| SyncFile.EofOnlyAfterDone | wire/sync_file.go:31-43 | the end is latched exactly when it already was or a DONE header is next at a chunk boundary |
| SyncFile.EofWithoutDone | wire/sync_file.go:44-49 | exactly when io.EOF is reported although no DONE chunk came |
| SyncFile.ReadOfFail | wire/sync_file.go:32-43 | a FAIL chunk is an error of the read, with the device's reason, and only that chunk is used up |
| SyncFile.ReadPanics | wire/sync_file.go:26-53 | exactly when a read panics: on a DATA or FAIL header of 2^31 bytes or more at a chunk boundary, or in the state such a DATA header has left |
| SyncFile.ReadStaysInChunk | wire/sync_file.go:44-52 | no read crosses a chunk boundary: delivered bytes and the new count add up to the count before, or to the size of the chunk just opened |
| SyncFile.SyncFileWriter.Write | wire/sync_file.go:75-97 | success, which is exactly the full count, puts the whole buffer on the wire as DATA frames of at most 64k; on an error the returned count is fully on the wire, and nothing but a prefix of the frames is |
| SyncFile.SyncFileWriter.CopyDone | wire/sync_file.go:99-117 | success exactly if the DONE frame with the modification time (or the current time) is completely on the wire and an OKAY status comes next, which is then consumed |
| SyncFile.FileRoundTrip | wire/sync_file.go:26-53 | for any split of a file into writes, then DONE, any buffer sizes and anything behind it, what is delivered is always a prefix of the file, it is the whole file once the end is reported, and with non-empty buffers the end comes |
| SyncFile.PayloadOfPrefix | wire/sync_conn.go:243-273 | cutting a complete stream at any byte cuts its payload to a prefix |
| SyncFile.TruncatedFile | wire/sync_file.go:26-53 | a transfer cut at any byte, read with any buffer sizes, delivers a prefix of the file |
| SyncCopy.PullLoop | wire/sync_conn.go:383-404 | the loop stores what the chunk reader delivers, ends with its error, and its strictly increasing handler counts end at the bytes stored; on a disk error a prefix is stored that ends between the last two counts |
| SyncCopy.PullOfCompleteStream | wire/sync_conn.go:386-404 | on every complete stream the pull succeeds with the chunks before the first empty one; the whole file arrives if and only if no chunk with data follows an empty one |
| SyncCopy.PullOfFail | wire/sync_conn.go:386-391 | behind any non-empty chunks, a FAIL of the device is the error of the pull, with the device's reason, and the chunks are stored |
| SyncCopy.PullOfUnknown | wire/sync_conn.go:386-391 | the same for an id that is none of DATA, DONE and FAIL |
| SyncCopy.PullOfCutStream | wire/sync_conn.go:386-404 | for every complete stream, empty chunks included, cut at every byte on a connection with any ending: exactly what is stored, and exactly when success is reported |
| SyncCopy.PullSuccess | wire/sync_conn.go:386-404 | for non-empty chunks cut anywhere, with any ending: a prefix of the file is stored, success is reported if and only if nothing is missing or the connection closed cleanly inside a chunk at a multiple of 64k, and it comes with the whole file only if nothing is missing; any other result is an error of the connection |
| SyncCopy.PushedIsPulled | wire/sync_file.go:75-97 | what the writer sends for any split of a file, the pull loop stores as exactly that file, with success |
| SyncCopy.PushLoop | wire/sync_conn.go:439-455 | success exactly if the wire carries writes that split the whole local file, then DONE, and an OKAY status comes next, which is then read; in any case the handler's counts are the positive sizes of the chunks completely on the wire, behind which at most a prefix of the next chunk's frames, or of DONE behind the whole file, is out |
| SyncDir.KindOfMode | wire/filemode.go:15-33 | the decoded kind of a mode word is right for every file type but sockets and block devices, which become directories |
| SyncDir.ModeIsDecoded | wire/sync_conn.go:143-145 | a sent entry of any other file type and any permissions is read with exactly that kind and these permissions |
| SyncDir.ReadDentV1 | wire/sync_conn.go:134-174 | entry (beside its error and filled up with zeros if its name is cut), end mark or error, and the bytes used up, for every stream |
| SyncDir.DentAnswers | wire/sync_conn.go:134-174 | every record header: DONE alone is the end, DENT alone an entry, any other id an error; missing bytes are an error of the connection beside these |
| SyncDir.SyncDirReader.ReadDir | wire/sync_dir.go:32-54 | a page of at most uint32(n) entries, its error and the latched end, for every n and every stream |
| SyncDir.RecordIsRead | wire/sync_conn.go:134-174 | an entry (or end record) of any name, mode word, signed size and signed time reads back, and nothing behind it is taken |
| SyncDir.PageOfListing | wire/sync_dir.go:37-53 | a page of a complete listing is its first entries, or all of them with the end; nothing after the end record is consumed |
| SyncDir.PagesOfListing | wire/sync_dir.go:32-54 | for any page sizes the pages concatenate to a prefix of the entries, and to all of them once the end is reported; later calls consume nothing |
| SyncDir.PageOfBound | wire/sync_dir.go:37-38 | the bound of a page is taken modulo 2^32, negative ones included |
| SyncDir.WholeListingAtOnce | wire/sync_dir.go:37-38 | ReadDir(-1) returns all entries and the end in one call if and only if there are fewer than 2^32 - 1 |
| SyncDir.CutRecord | wire/sync_conn.go:136-156 | a record with missing bytes is an error, an end record included, and uses up what there is |
| SyncDir.TruncatedPages | wire/sync_dir.go:32-54 | a listing that breaks off at any byte, read in any pages, shows a prefix of its entries and never its end |
| Numbers.ParseOfItoa | device_info.go:39-45 | the decimal text of every int64 parses to that number |
| Numbers.ParseOfPrinted | device_info.go:39-45 | decimal text of any size, with and without a sign: the number exactly if it is an int64, and none otherwise |
| Numbers.ParseIsHexText | wire/conn.go:203-206 | a short text parses exactly if it is hexadecimal digits of either case behind at most one sign |
| Numbers.Hex4Examples | wire/conn.go:97 | lower-case digits, four of them, zeros in front |
| Numbers.ParseOfHex4 | wire/conn.go:97-208 | a %04x length below 65536 is four characters that parse back to it |
| HostConn.ReadHexLength | wire/conn.go:197-208 | the header fills the whole buffer it is given; short input is a reset, text that is no number an assertion error |
| HostConn.ReadMessageInto | wire/conn.go:173-194 | the message, error and bytes used up for every stream and buffer; a message longer than the buffer is in fresh memory, a shorter one in the buffer in front of what is left of the header |
| HostConn.Conn.SendMessage | wire/conn.go:91-100 | refused with nothing written exactly above 4096 bytes; success exactly if the whole frame is written |
| HostConn.Conn.ReadMessage | wire/conn.go:120-122 | one message off the stream; results over 4 bytes are fresh, the others alias rbuf, whose contents are stated |
| HostConn.MessageAnswers | wire/conn.go:173-208 | on every stream: without an error exactly if the header is a number that is not negative and that many bytes follow, which are then the message; a header that is no number is an assertion error, a cut message an error |
| HostConn.Conn.ReadStatus | wire/conn.go:147-170 | status or server error and the bytes used up, for every stream |
| HostConn.StatusAnswers | wire/conn.go:147-170 | on every stream: without an error exactly if four bytes come that are not FAIL, which are then the status; a FAIL, complete or cut, becomes the error |
| HostConn.StatusResets | wire/conn.go:152-170 | exactly which failed statuses count as a connection reset |
| HostConn.Conn.RoundTripSingleResponse | wire/conn.go:104-114 | an overlong or incompletely written request is an error and nothing is read; otherwise the result is the status's error, or the message after the status with its error, for every stream |
| HostConn.Conn.ReadTwoMessages | wire/conn.go:116-194 | after a second read the first result is unchanged if it has more than 4 bytes, and otherwise shows the second header and the second message's bytes |
| HostConn.Conn.ReadAndKeepReading | wire/conn.go:116-194 | through any number of later reads of messages and statuses, failed ones included, a result over 4 bytes keeps its contents; a shorter one is the shared buffer |
| HostConn.FrameIsRead | wire/conn.go:91-208 | a framed message is read back, and the bytes behind it stay |
| HostConn.FramesAreRead | wire/conn.go:91-208 | for any messages of at most 4096 bytes and any suffix, repeated reads give the messages in order and leave the suffix |
| HostConn.FramesAreUnique | wire/conn.go:91-100 | two equally long histories with any suffixes have the same bytes only if they are the same |
| HostConn.FrameExamples | wire/conn.go:97-98 | frames character by character |
| HostConn.StatusConsumption | wire/conn.go:147-170 | OKAY takes exactly 4 bytes; FAIL takes 8 and its message, which becomes the error |
| HostConn.ResetErrors | wire/conn.go:173-208 | exactly which failed reads count as a connection reset, the error the watcher recovers from: a cut header always, a body cut by a clean close only after its first byte |
| HostConn.NegativeLengthPanics | wire/conn.go:187-203 | a read panics exactly if the header is a minus sign and three hexadecimal digits other than 000, that is if it parses to a negative length |
| ShellTransport.Send | shell_transport.go:37-52 | exactly the packet reaches the wire, or a prefix with an error; success exactly if it is complete |
| ShellTransport.Read | shell_transport.go:54-74 | the next packet, the error (io.EOF only between packets; a cut body comes back filled up with zeros) and the bytes used up, for every stream |
| ShellTransport.PacketAnswers | shell_transport.go:54-74 | on every stream: whole exactly if as many bytes follow the header as it says, io.EOF exactly at a clean end between two packets, and what a cut body comes back as |
| ShellTransport.PacketExamples | shell_transport.go:24-52 | the kinds, and packets byte by byte |
| ShellTransport.PacketIsRead | shell_transport.go:37-74 | a packet is read back with its kind and payload, and only its own bytes are taken |
| ShellTransport.ReadIsPacket | shell_transport.go:54-74 | whatever a successful read took off the stream is the encoding of its result |
| ShellTransport.PacketsAreRead | shell_transport.go:37-74 | any packets, followed by anything, are read back in order with equal kinds and payloads |
| Session.StepKeepsReaderInv | session.go:183-228 | every step of every goroutine keeps: the stream is the packets read plus the bytes to come, what was written is the demultiplexed packets, and any nil or ExitError under way is that of an exit packet whose predecessors are all written |
| Session.StepKeepsWaiterInv | session.go:284-296 | every step keeps: at most one channel value is taken, none while the caller is blocked, and afterwards the session is aborted |
| Session.ExitMeansAllOutput | session.go:141-296 | in every interleaving at most one value is taken; if it is nil or an ExitError, the stream starts with stdout and stderr packets and an exit packet, whose status is 0 exactly for nil and the reported one otherwise, each set writer got exactly its payloads, and one shared buffer got them in packet order |
| Session.ExitPacketsAreTheStreams | session.go:183-213 | the packets the reader has consumed are the ones any reader finds in the stream's bytes |
| Session.TakenHasReason | session.go:183-296 | in every interleaving: a missing exit status means a Close from outside, or a clean end of the stream with everything handed over; another error means a failure beside the stream, or a packet that is unknown or cannot be read; an exit status means that output and handles were served well |
| Session.WaitClosesSession | session.go:78-296 | when Wait has returned, the session is aborted and its connection is closed |
| Session.AbortEndsLoops | session.go:78-184 | after an abort the reader takes at most one more packet and at most one more is sent from stdin, in every interleaving |
| Session.NoStdinIsClosed | session.go:179-182 | without Stdin the close-stdin packet is all that is ever sent |
| Session.WaitIsNotStuck | session.go:183-292 | in every reachable state in which the caller is blocked and nothing has panicked, the reader goroutine can take a step or hand over a value |
| Session.ReaderStepsAreBounded | session.go:183-228 | no schedule holds more such steps than three for each byte of the stream and five, so that Wait returns wherever the reader goroutine is given its turns |
| Session.ExitIsReported | session.go:183-296 | for any output packets and any status there is a run in which Wait gets nil for status 0 and an ExitError with the status otherwise |
| Session.StepKeepsStdinInv | session.go:160-178 | every step keeps: payloads sent, bytes in flight, bytes dropped and input to come make up the input, and an unbroken wire carries exactly the packets sent |
| Session.StdinIsForwarded | session.go:160-178 | in every interleaving the stdin goroutine sends packets of at most 1024 bytes whose payloads are a prefix of the input, then at most one close-stdin packet, last; when it has ended, that packet is completely on the wire or the session is aborted or about to be; the payloads are then the whole input if and only if the source reported its end with zero bytes; as long as no write fails the wire carries exactly these packets |
| Session.BareInputIsForwarded | session.go:160-178 | for a source that reports its end only with zero bytes, a goroutine that has ended in a session not torn down has sent all input and the close-stdin packet |
| Session.InputIsForwarded | session.go:160-178 | for every input there is a run that forwards all of it, then close-stdin |
| Session.InputIsLost | session.go:164-169 | for every input of 1 to 1024 bytes there is a run, without any error, that forwards none of it: the bytes come together with io.EOF |
| Session.ReaderPanics | session.go:183-228 | in every run the reader goroutine has panicked exactly if the last packet it handled was an exit packet without data |
| Session.EmptyExitPanics | session.go:208-209 | after any output, such a packet does panic |
| CommandLine.PrepareCommandLine | device.go:355-375 | when each error comes, the joined line, and the caller's slice: quoted at the entries with white space, on an error only before the offending index |
| CommandLine.QuotedExactly | util.go:13-15 | an argument is quoted exactly if it holds a space, a tab or a vertical tab |
| CommandLine.BlankExactly | util.go:9-19 | a command is refused as blank exactly if trimming leaves nothing of it and it has no vertical tab |
| CommandLine.CommandOfTwo | device.go:369-372 | arguments follow the command behind single spaces, and a command of blanks is refused |
| CommandLine.ScanJoined | device.go:360-372 | splitting the quoted and joined arguments outside quotes gives the non-empty arguments back |
| CommandLine.TokensOfCommandText | device.go:355-375 | for a command with balanced quotes and arguments without double quotes, tokenizing the line gives the command's tokens and then the arguments, exactly if none is empty |
| Batching.FilterFileExistedError | sync.go:79-88 | the loop keeps the complaints of the answer's lines |
| Batching.FilteredLines | sync.go:79-88 | a complaint of mkdir is kept exactly if it is non-blank and does not end in "File exists" |
| Batching.FilteredParts | sync.go:79-88 | every line is judged by itself wherever it stands, so that order and repetitions are kept |
| Batching.ExistsIsDropped | sync.go:79-88 | a complaint that ends in "File exists" is dropped with any white space behind it, a carriage return included |
| Batching.Device.Run | shell.go:51-109 | a request is sent at most once, exactly as quoted and joined, and only if it can be quoted and has at most 4096 bytes; exactly when quoting fails; a bad status of the server is the error, and otherwise the response is what follows the status |
| Batching.RequestParts | shell.go:62-67 | a request is the prefix shell: and the command line |
| Batching.Device.MkdirsWithParent | sync.go:95-141 | on success the requests are those of the greedy batches, in order, and on an error a prefix of them; the complaints are those in the answers; success shows, and a refusal for length refutes, that every batch costs at most 4082 bytes (4085 without -p); under the bound of 4000 bytes and 40 (42) quoted names there is no refusal |
| Batching.Device.Rm | sync.go:145-183 | the same for rm, with the non-empty answers as complaints; success shows, and a refusal for length refutes, that the names of the list cost at most 4084 bytes together |
| Batching.BatchesPartition | sync.go:103-125 | the batches, one after the other, are the list |
| Batching.EmptyBatch | sync.go:106-121 | a batch without names occurs exactly when the first name is over the limit |
| Batching.RequestSize | device.go:360-372 | the bytes of a request: prefix, command, names with one separator each, and two quotes for each name with white space |
| Batching.BatchSizes | sync.go:103-125 | every batch holds at most limit + 1 bytes counted with separators |
| Batching.MkdirRequestsFit | sync.go:95-141 | with names of at most 4000 bytes and no double quotes, no batch is empty, the batches make up the list, and each request with at most 40 quoted names (42 without -p) is accepted by SendMessage |
| Batching.EveryMkdirRequestFits | sync.go:95-141 | under that bound on every batch, no request of the whole call is refused for its length |
| Batching.FortyOneIsTooMany | sync.go:104-106 | forty is exact: a batch with 41 quoted names makes a request of 4097 bytes |
| Batching.MkdirFitsExactly | sync.go:95-141 | mkdir's requests are all accepted if and only if every batch costs at most 4082 bytes with -p, 4085 without, counting a separator for each name and two quotes around white space |
| Batching.LateBatches | sync.go:151-171 | a batcher whose limit is at least twice what a message takes produces only acceptable batches exactly if everything fits into one |
| Batching.RmFitsExactly | sync.go:151-174 | rm's requests are all accepted if and only if the names of the whole list cost at most 4084 bytes together |
| DeviceInfo.ParseDeviceLong | device_info.go:151-171 | the fields parser, panics on short lines and fields without a colon included |
| DeviceInfo.FieldsPanic | device_info.go:151-171 | the fields parser panics exactly on fewer than two words and on a later word without a colon |
| DeviceInfo.ExtraColons | device_info.go:167-171 | of a field with several colons the fields parser takes only the part between the first two |
| DeviceInfo.TransportIdExactly | device_info.go:33-56 | a blank serial is refused; the transport id is the number of its text, and 0 if that is none of 64 bits |
| DeviceInfo.Buffer.ReadBuff | device_info.go:82-97 | takes what is before the first blank (or non-blank) byte, or fails and takes nothing |
| DeviceInfo.ParseDeviceLongE | device_info.go:99-149 | the buffer parser computes the specification parser, on every line |
| DeviceInfo.ScannedItems | device_info.go:130-147 | what the loop makes of any attributes with any white space between them: a gap without a space is refused, and what follows the last space of a gap becomes part of the next key |
| DeviceInfo.AttributesOfItems | device_info.go:130-147 | attributes with colon-free trimmed values, spaces inside allowed, and gaps that end in a space are recovered from their text, later duplicates winning |
| DeviceInfo.PrintedLineParses | cmd/adb/main.go:125-147 | parsing the printed line gives the same device back, decimal transport ids included, exactly if at least one attribute is printed |
| DeviceLines.BodyExactly | device_info.go:122-171 | on words with exactly one colon each, both parsers read the same attributes if and only if every word but the first comes right after a space; the buffer parser refuses exactly a gap without a space |
| DeviceLines.ReadingsAgree | device_info.go:99-171 | on every line with a serial, a state and such words, with any white space around and between them, both parsers read the same serial, state and attributes if and only if blanks and tabs alone separate the first three words and every later word comes right after a space; then the devices are equal; when the buffer parser refuses the line |
| DeviceLines.ParsersAgree | device_info.go:99-171 | on lines of three or more words separated by spaces, with exactly one colon in each word from the third on, both parsers give equal results, duplicates included |
| DeviceStates.ParseDeviceStates | device_watcher.go:194-215 | the loop computes the snapshot and its overwritten error, for every text |
| DeviceStates.StateTextExactly | device_state.go:28-43 | the parser knows exactly the six texts of states; any other text is an error and the invalid state |
| DeviceStates.SnapshotError | device_watcher.go:197-214 | a snapshot is refused exactly if some line is malformed or the last non-empty line has a text of no state |
| DeviceStates.SnapshotRoundTrip | device_watcher.go:194-215 | the text of any list of devices parses to that list, the last entry of a serial counting |
| DeviceStates.UnknownStateIsSwallowed | device_watcher.go:208-211 | an unknown state in front of another line is recorded as invalid without an error |
| DeviceStates.CalculateStateDiffs | device_watcher.go:217-238 | in any map order: one event for each new, gone or changed serial and no other, from its old to its new view |
| DeviceStates.EventsExactly | device_watcher.go:217-238 | a serial has an event exactly if it is in one snapshot only or in both with different states, from its old to its new state, absence counting as disconnected |
| DeviceStates.AfterDistinct | device_watcher.go:187-189 | after events about different serials a consumer has each serial where its event put it, or where it was |
| DeviceStates.DiffIsExact | device_watcher.go:217-238 | replayed in any order after a trace that shows the old snapshot, the events show the new one, and every event continues the chain of its serial |
| DeviceWatcher.Watcher.PublishRemovals | device_watcher.go:131-134 | in any map order, one removal event for each known device |
| DeviceWatcher.Watcher.PublishDevicesUntilError | device_watcher.go:175-192 | the loop takes replies as steps of the transition system until a read or a snapshot fails |
| DeviceWatcher.Watcher.PublishDevices | device_watcher.go:102-154 | every run of the program is a run of the transition system; it has stopped exactly if the error is stored and the channel closed |
| DeviceWatcher.NextKeeps | device_watcher.go:102-154 | every step keeps: the consumer sees lastKnownStates, events chain, and nothing but one stored error and one close ends a history |
| DeviceWatcher.EveryRunIsGood | device_watcher.go:102-154 | over every run, with any replies, map orders and restarts: after each snapshot and each sweep a consumer replaying the events holds exactly the watcher's view, events chain per serial, each server start directly follows a sweep, and a stopped run stored exactly one error, then closed the channel once, with nothing after |
| DeviceWatcher.RepliesDecide | device_watcher.go:102-192 | over every run the replies alone decide the phase and everything in the history beside the events, in order: it stops exactly on a failed connect or start, a refused snapshot, a read error that is no reset, or a reset of a real server without AutoStart, and stores that error; every other reset brings one sweep, and every start reply its record |
| DeviceWatcher.ResetIsRecovered | device_watcher.go:122-147 | such a reset publishes exactly one removal for each known device, then forgets them and starts the server; after a successful start it connects again |
| Progress.PercentIs100 | wire/sync_conn.go:529-531 | with the quotient and the product each rounded to a nearest double, the percentage reaches 100 exactly when everything is sent, for sizes up to 2^53 |
| Progress.PercentGrows | sync.go:221-228 | the rounded percentages never decrease and stay between 0 and 100 |
| Progress.PercentIsNear | sync.go:221-228 | the rounded whole percentage is the exact one or next to it |
| Progress.RoundingExists | sync.go:221-228 | there is a rounding to nearest doubles, so the results below are about something |
| Progress.DirCallbacks | wire/sync_conn.go:520-548 | for a non-empty file of unchanged size: 1 to 20 callbacks, strictly increasing, the last and only that one at 100; under 10 MiB it is the only one |
| Progress.FileCallbacks | sync.go:216-230 | for a non-empty file of unchanged size: 1 to 100 callbacks, strictly increasing, the last at 100 |
| Progress.DirReports | wire/sync_conn.go:529-546 | exactly which chunks are reported: the completing one, and from 10 MiB on each that brings five percent more than the last report |
| Progress.FileReports | sync.go:221-229 | exactly which chunks are reported: each that brings a higher whole percent |
| Progress.DirProgress.OnChunks | wire/sync_conn.go:520-548 | the closure itself, called for each chunk of a file, makes these 1 to 20 calls, and none for an empty file |
| Progress.FileProgress.OnChunks | sync.go:216-230 | the closure itself, called for each chunk of a file, makes these 1 to 100 calls, and none for an empty file |

## Left out

- Sockets, dialing, deadlines, launching processes and walking local directories: connections are byte streams with an ending, local files are byte sequences, name lists are given.
- Byte streams never block for ever and a connection has one ending; the time at which bytes arrive is not modelled.
- Characters: one `char` stands for one byte of text, and white space is ASCII; Unicode white space and UTF-8 are not modelled.
- Error texts, beyond the kind of error; the server error for an unknown device is not told apart from other server errors.
- SyncFile.SyncFileWriter.Write: the caller's buffer is a value, so that it does not change during the call.
- SyncCopy.PullLoop: Stat, creating the local file and sending the request come before it and are not modelled.
- Session.ExitMeansAllOutput: starts after Start has succeeded and has one waiting caller; shared variables are sequentially consistent, which Go does not promise for the unsynchronised `abort` flag; the error of Close that Wait joins to the value is not modelled.
- Session.WaitIsNotStuck: a read from the device, a write to Stdout or Stderr and the closing of handles are steps that come to an end; the time the device takes is not modelled.
- Session.StdinIsForwarded: the input is a finite byte sequence; whether the goroutine runs at all is up to the schedule.
- Batching.Device.Run: the answer, and whether it breaks off or times out, are left to the environment.
- DeviceWatcher.Watcher.PublishDevices: the environment's replies are a finite list, so an endless run is shown as its prefixes; connecting (dial, request, status) is one reply; the random delay is left out; a handler always receives the event.
- DeviceWatcher.EveryRunIsGood: Shutdown and the finalizer, which do nothing in the code, are left out.
- Progress.DirCallbacks: sizes above 2^53, where doubles no longer count single bytes, files that grow or shrink while they are pushed, speeds and durations are left out; the final callback that reports an error is not one of the calls.
- Progress.FileCallbacks: the same.
- DeviceLines.ReadingsAgree: where the readings differ only in keys that no device field uses, the devices can still be equal; words with no colon or several, on which the fields parser panics or drops text, are not compared.
- The short-line parser and the scanner of the device list: easy members.
- Stat and Lstat, feature lists, descriptors, state names, properties and the parsers of command outputs: easy members or uses of regular expressions.
- The applications under cmd, except the printed device line.
