# An ARINC 615A data loader, modelled and proved

The repository implements the data loader side of ARINC 615A: a host exchanges protocol files with a target hardware
over TFTP, and runs four kinds of operations with it (information, upload, operator-defined download, media-defined
download). This project models in Dafny

- the protocol file codec: strings, ratios, counted and nested lists, the header with its back-patched length, and the
  nine file types (LCL, LCS, LUR, LUS, LNR, LNL, LNA, LNS and the four initialisation files, which are alike);
- the host side of the four operations, with the transfers they start, the DLP timer, the handler that calls back, and
  a history of everything an operation has reported;
- the upload command and the batch upload command, which drive upload operations;
- the smaller parsers and printers: FIND packets, protocol filenames with their target IDs, WAIT and ABORT messages.

## How it is put together

| file | content |
|---|---|
| `Bytes.dfy`, `Text.dfy`, `Ratio.dfy` | numbers, strings and ratios on the wire |
| `Grammar.dfy` | one description of "which fields follow each other", its printer and parser, and the theorems about every such description |
| `Files.dfy` | header, the nine bodies as grammars, and the theorems about whole files |
| `FixedFiles.dfy`, `ListFiles.dfy`, `StatusFiles.dfy`, `LoadConfigurationListFile.dfy` | the file classes with their encoding and decoding loops, proved equal to `Files` |
| `Samples.dfy` | three files octet by octet |
| `Layouts.dfy` | the formats in octets, letters and numbers |
| `ProtocolFilename.dfy`, `ErrorMessage.dfy`, `FindPacket.dfy` | names, messages, packets |
| `OperationState.dfy` | the operations as a state machine over events |
| `HostOperation.dfy` | the operations as an object; each method takes its fields where the state machine says |
| `OperationSafety.dfy` | the invariant of every run and what follows from it |
| `OperationAnswers.dfy` | what every event is answered with, in octets, names and code numbers |
| `OperationTally.dfy` | counts over runs: calls of `finished`, timeouts, statuses, files handed over |
| `OperationTransfers.dfy` | which transfers an operation remembers, and what list requests and terminations cancel |
| `OperationWatchdog.dfy` | what a target has to do so that it is not timed out |
| `OperationDrain.dfy` | what can still happen after the server has stopped |
| `UploadCommand.dfy`, `BatchUpload.dfy` | the two commands and their runs |
| `BatchRun.dfy` | a batch together with all the operations it has started |

The two halves of the codec meet in `EncodeFile` and `DecodeFile`: the classes are proved to compute exactly these, and
round trips, prefix-freeness, injectivity, canonical forms and sizes are proved about these, once for all grammars. In
the same way the methods of `HostOperation` are proved to compute `Step`, and the results about runs are about every
sequence of events that the environment can produce (`Reachable`): starts and restarts, calls of the application at any
time and from inside handlers, requests with any name, completions in any order, and time.

A run of an operation is a sequence of events. The environment may complete only transfers that are outstanding, and
each of them once; an expired or failed timer must have been armed; a request needs a running server; and an application hands
over only what its kind of operation takes. Nothing else is assumed: transfers may fail, files may hold any octets, and an operation may be started again.

### What turned out not to hold

- `finished` is not called at most once: terminating during the initialisation reports at once and again when the
  cancelled transfer comes back (`OperationDrain.TerminateReportsTwice`), and so do two status transfers that fail
  (`TwoFailuresReportTwice`). After the first call, another one can come exactly as `ReportsAgainIff` says; one event
  makes at most one (`FinishedOncePerEvent`), and their number is bounded (`DrainReportsAreBounded`).
- So the latch of the batch command can be counted below zero (`TheLatchCanBreak`). It is exact exactly as long as no
  report comes when no operation is running (`LatchIsExactIff`), and that is so in every run in which no report leaves
  anything behind that can report again (`OperationsDriveTheBatch`, `PastIsQuietIff`).
- The length field of a load configuration list can wrap (`LengthCanTruncate`, with the exact condition in
  `LengthIsTrueIff`); no other file type can reach 2^32.
- The decoder of load configuration lists refuses files under 19 octets, which the encoder produces
  (`ListRoundTrip` has the exact condition, `CanonicalListCanBeTooShort` an accepted file whose re-encoding is refused).
- The string decoder accepts 254 characters; the encoder refuses them (`LongStatusIsDecodedOnly` is such a file,
  `CanonicalFile` has the exact condition). The documentation of the encoder says that the length must be below 255;
  the code needs room for the terminator as well.
- ABORT messages with the additional-information code 4 are printed but not accepted (`AbortRoundTrip`).
- A request is checked against the target only if its name is well-formed (`MalformedNamesPass` says which other names
  start a status transfer).
- A list request does not always cancel the list transfer before it: when an older one comes back, the newer one is
  forgotten (`AListIsForgotten` is such a run, `ListRequestCancelsIff` has the exact condition).
- `terminate` is documented to cancel all transfers; the code cancels only the remembered initialisation
  (`AStatusSurvivesTermination` is such a run, `TerminateCancelsIff` has the exact condition).
- An operation alone sends a second load list as long as the first has not arrived (`OperationAloneSendsTwice`); it is
  the command that prevents this (`AtMostOneLoadList`).

## Model

| member | source | states |
|---|---|---|
| Text.TextRoundTrip | lib/arinc_615a/files/String.cpp:24-91 | for every string that fits, every fixed length and every continuation: decoding the encoding gives the string up to its first NUL and exactly the continuation |
| Text.ParsedText | lib/arinc_615a/files/String.cpp:24-62 | a decoded string has at most 254 characters and no NUL, and the decoder has taken at least its canonical size from the input |
| Text.TextExtends | lib/arinc_615a/files/String.cpp:24-62 | octets behind a string do not change how it is read |
| Text.LongestIsDecodedOnly | lib/arinc_615a/files/String.cpp:24-91 | every NUL-free string of 254 characters can be read and not be written |
| Text.StringEncode | lib/arinc_615a/files/String.cpp:64-91 | filling the buffer in place gives length, characters and zero padding; refused exactly when size and terminator exceed 254 or the fixed length |
| Text.StringDecode | lib/arinc_615a/files/String.cpp:24-62 | cuts one string off the span, or rejects a short or unterminated field |
| Ratio.RatioRoundTrip | lib/arinc_615a/files/Ratio.cpp:25-62 | every percentage survives printing as three characters and parsing, with any continuation |
| Grammar.RoundTrip | lib/arinc_615a/files/upload/UploadOperationStatusFile.cpp:66-246 | for every sequence of fields with counted and nested lists: decoding the encoding gives the value (strings cut at NUL) and exactly the continuation, if and only if all codes are known |
| Grammar.Accepted | lib/arinc_615a/files/upload/UploadOperationStatusFile.cpp:147-246 | whatever a decoder accepts is well-formed, uses known codes and has no NUL in its strings |
| Grammar.Extends | lib/arinc_615a/files/download/DownloadOperationRequestFile.cpp:134-177 | octets behind an accepted body are left over and change nothing |
| Grammar.PrefixFree | lib/arinc_615a/files/download/DownloadOperationRequestFile.cpp:134-177 | no body that is read to its end goes on in another one that is |
| Grammar.PrintInjective | lib/arinc_615a/files/download/DownloadOperationRequestFile.cpp:85-132 | two NUL-free values with the same octets, whatever follows, are the same value with the same continuation |
| Grammar.ReencodableIff | lib/arinc_615a/files/String.cpp:24-91 | an accepted body can be encoded again if and only if none of its strings has 254 characters |
| Grammar.ReencodingIsShort | lib/arinc_615a/files/String.cpp:24-91 | and then takes no more octets than it was read from |
| Grammar.Canonical | lib/arinc_615a/files/upload/UploadOperationStatusFile.cpp:66-246 | an accepted body without such strings has an encoding that is no longer and reads the same, whatever follows |
| Files.InsertHeader | lib/arinc_615a/files/ProtocolFile.cpp:43-50 | writes size and version into the first six octets in place and nothing else |
| Files.FileRoundTrip | lib/arinc_615a/files/ProtocolFile.cpp:43-91 | for all nine file types, all versions and all encodable values: the file decodes to version and value if and only if the version is A3 or A4, the codes are known, and the size is at least the minimum and below 2^32 |
| Files.AcceptedIff | lib/arinc_615a/files/ProtocolFile.cpp:52-91 | over all octets and file types: a file is accepted exactly when it has the minimum size, its first four octets are its size, the next two are A3 or A4, and the rest is a body with nothing left; version and value are the ones in it |
| Files.AcceptedHeader | lib/arinc_615a/files/ProtocolFile.cpp:43-91 | the header of an accepted file is the one an encoder writes for its size and version |
| Files.AcceptedHasItsSize | lib/arinc_615a/files/ProtocolFile.cpp:61-70 | no accepted file of any type stays accepted when octets are appended or cut off |
| Files.LengthNeverTruncates | lib/arinc_615a/files/ProtocolFile.cpp:43-50 | for every type but LCL the 32-bit length field is the true size of every encodable value |
| Files.LengthCanTruncate | lib/arinc_615a/files/information/LoadConfigurationListFile.cpp:67-139 | an encodable LCL value of 2^32 octets or more, whose file nobody accepts |
| Files.MinimumIsMet | lib/arinc_615a/files/InitializationFile.cpp:62-89 | every type but LCL encodes to at least the size its own decoder demands |
| Files.BodiesPrefixFree | lib/arinc_615a/files/download/DownloadOperationRequestFile.cpp:134-177 | no accepted body is a proper prefix of another accepted body of its type |
| Files.EncodersInjective | lib/arinc_615a/files/upload/UploadOperationRequestFile.cpp:63-102 | equal files come from equal versions and equal NUL-free values |
| Files.CanonicalFile | lib/arinc_615a/files/upload/UploadOperationStatusFile.cpp:66-246 | every accepted file without 254-character strings, and no other, encodes again, to no more octets, and decodes to the same content exactly when it still has the minimum size |
| Files.CanonicalListCanBeTooShort | lib/arinc_615a/files/information/LoadConfigurationListFile.cpp:141-216 | an accepted list whose canonical form its own decoder refuses |
| LoadConfigurationList.EncodedSize | lib/arinc_615a/files/information/LoadConfigurationListFile.cpp:67-139 | the file of a list has eight octets, for every target its two strings and two octets, and for every part its three strings |
| LoadConfigurationList.LengthIsTrueIff | lib/arinc_615a/files/ProtocolFile.cpp:43-50 | the length field of a list is its size if and only if these add up to less than 2^32 |
| LoadConfigurationList.ListRoundTrip | lib/arinc_615a/files/information/LoadConfigurationListFile.cpp:67-216 | all nested lists of NUL-free strings come back with their version exactly when the version is A3 or A4 and these add up to a size from 19 up to 2^32 |
| LoadConfigurationList.TargetValuesInjective | lib/arinc_615a/files/information/LoadConfigurationListFile.cpp:67-139 | the values that come back determine the targets and their parts |
| LoadConfigurationList.LoadConfigurationListFile.Encode | lib/arinc_615a/files/information/LoadConfigurationListFile.cpp:67-139 | the two nested loops build exactly the file of the value, or refuse exactly when it cannot be encoded |
| LoadConfigurationList.LoadConfigurationListFile.Decode | lib/arinc_615a/files/information/LoadConfigurationListFile.cpp:141-216 | the two nested loops accept exactly the decodable files, replace the version and append their targets |
| FixedFiles.InitializationFile.Encode | lib/arinc_615a/files/InitializationFile.cpp:62-81 | builds the file of code and description |
| FixedFiles.InitializationFile.Decode | lib/arinc_615a/files/InitializationFile.cpp:83-109 | accepts exactly the decodable files and then holds their content |
| FixedFiles.InformationOperationStatusFile.Encode | lib/arinc_615a/files/information/InformationOperationStatusFile.cpp:62-91 | builds the file of the status |
| FixedFiles.InformationOperationStatusFile.SetCode | lib/arinc_615a/information/Status.cpp:71-75 | a new code comes without a description |
| FixedFiles.InformationOperationStatusFile.Decode | lib/arinc_615a/files/information/InformationOperationStatusFile.cpp:93-133 | accepts exactly the decodable files and then holds their content |
| ListFiles.UploadOperationRequestFile.Encode | lib/arinc_615a/files/upload/UploadOperationRequestFile.cpp:63-102 | the loop builds the file of the loads in their order |
| ListFiles.UploadOperationRequestFile.Decode | lib/arinc_615a/files/upload/UploadOperationRequestFile.cpp:104-151 | accepts exactly the decodable files, replaces the version and appends the loads |
| ListFiles.DownloadOperationRequestFile.Encode | lib/arinc_615a/files/download/DownloadOperationRequestFile.cpp:85-132 | the loop builds the file of names and user-defined data |
| ListFiles.DownloadOperationRequestFile.Decode | lib/arinc_615a/files/download/DownloadOperationRequestFile.cpp:134-177 | accepts exactly the decodable files, appends the names and replaces the user-defined data |
| ListFiles.DownloadOperationAnswerFile.Encode | lib/arinc_615a/files/download/DownloadOperationAnswerFile.cpp:63-95 | the loop builds the file of the names |
| ListFiles.DownloadOperationAnswerFile.Decode | lib/arinc_615a/files/download/DownloadOperationAnswerFile.cpp:97-135 | accepts exactly the decodable files and appends the names |
| ListFiles.DownloadOperationListFile.Encode | lib/arinc_615a/files/download/DownloadOperationListFile.cpp:73-111 | the loop builds the file of names and descriptions |
| ListFiles.DownloadOperationListFile.Decode | lib/arinc_615a/files/download/DownloadOperationListFile.cpp:113-158 | accepts exactly the decodable files and appends names and descriptions |
| StatusFiles.UploadOperationStatusFile.Encode | lib/arinc_615a/files/upload/UploadOperationStatusFile.cpp:66-145 | head and loop build the file of the status and its loads |
| StatusFiles.UploadOperationStatusFile.Decode | lib/arinc_615a/files/upload/UploadOperationStatusFile.cpp:147-246 | accepts exactly the decodable files and then holds their content |
| StatusFiles.DownloadOperationStatusFile.Encode | lib/arinc_615a/files/download/DownloadOperationStatusFile.cpp:66-136 | head and loop build the file of the status and its files |
| StatusFiles.DownloadOperationStatusFile.Decode | lib/arinc_615a/files/download/DownloadOperationStatusFile.cpp:138-218 | accepts exactly the decodable files and then holds their content |
| StatusFiles.StatusPrinted | lib/arinc_615a/files/upload/UploadOperationStatusFile.cpp:66-110 | order and widths of the fields in front of the entries |
| StatusFiles.EntryPrinted | lib/arinc_615a/files/download/DownloadOperationStatusFile.cpp:105-136 | order of the fields of a file entry, for all entries |
| ListFiles.LoadPrinted | lib/arinc_615a/files/upload/UploadOperationRequestFile.cpp:82-97 | order of header filename and part number, for all loads |
| ListFiles.InformationPrinted | lib/arinc_615a/files/download/DownloadOperationListFile.cpp:91-105 | order of filename and description, for all files on offer |
| Layouts.LoadEntryLayout | lib/arinc_615a/files/upload/UploadOperationStatusFile.cpp:109-145 | header filename, part number, ratio, code and description of a load entry in this order, for all entries |
| Layouts.InitializationLayout | lib/arinc_615a/files/InitializationFile.cpp:62-81 | code, then description |
| Layouts.InformationStatusLayout | lib/arinc_615a/files/information/InformationOperationStatusFile.cpp:62-91 | counter, code, exception timer, estimated time, description in this order, for all values |
| Layouts.PartLayout | lib/arinc_615a/files/information/LoadConfigurationListFile.cpp:112-132 | part number, amendment and designation in this order, for all parts |
| Layouts.TargetLayout | lib/arinc_615a/files/information/LoadConfigurationListFile.cpp:86-132 | literal name, serial number, count and parts in this order, for all targets |
| Layouts.ListLayout | lib/arinc_615a/files/information/LoadConfigurationListFile.cpp:67-139 | a list is its 16-bit count and its entries in order, none left out |
| Layouts.WhatFits | lib/arinc_615a/files/String.cpp:64-91 | which strings can be written, by their length alone |
| Layouts.FixedLayout | lib/arinc_615a/files/String.cpp:64-91 | a string with a fixed length is that length, the characters and zeros up to it |
| Layouts.SignedNumbers | lib/arinc_615a/files/information/InformationOperationStatusFile.cpp:118-121 | 16-bit numbers in two octets, high one first, negative from 0x8000 on |
| Layouts.ThreeDigits | lib/arinc_615a/files/Ratio.cpp:25-49 | three digits are accepted with their decimal value exactly up to 100 |
| Layouts.SpacedRatios | lib/arinc_615a/files/Ratio.cpp:25-49 | what stoul makes of white space in front |
| Layouts.SignedRatios | lib/arinc_615a/files/Ratio.cpp:25-49 | and of signs and other characters |
| Layouts.StatusNumbers | lib/arinc_615a/StatusCode.cpp:96-139 | the numbers of the status codes, of the acceptance codes and of the codes in abort messages |
| Samples.UploadRequestSample | lib/arinc_615a/files/upload/test/UploadOperationRequestFileTest.cpp:24-45 | the octets of a request with two loads |
| Samples.DownloadStatusSample | lib/arinc_615a/files/download/test/DownloadOperationStatusFileTest.cpp:24-73 | the octets of a status with two files, negative estimated time and padded ratio |
| Samples.LongStatusIsDecodedOnly | lib/arinc_615a/files/download/DownloadOperationStatusFile.cpp:66-218 | an accepted download status for every description of 254 characters, whose content cannot be encoded |
| Filenames.PrintThenParse | lib/arinc_615a/files/ProtocolFilename.cpp:86-141 | a printed name is a protocol filename and parses to its parts if and only if target ID and type are valid |
| Filenames.ParseThenPrint | lib/arinc_615a/files/ProtocolFilename.cpp:19-91 | every protocol filename is what its parts print to, and they are valid |
| Filenames.NamesSeparateTargets | lib/arinc_615a/TargetId.cpp:24-131 | names of different targets differ |
| Layouts.ExtensionTable | lib/arinc_615a/files/ProtocolFilename.cpp:138-169 | the printed name of every file type of every target |
| Layouts.TargetIdIff | lib/arinc_615a/TargetId.cpp:24-131 | over all strings: a target ID is 4 to 15 letters and digits, an underscore, and up to 8 more |
| Layouts.ProtocolFilenameIff | lib/arinc_615a/files/ProtocolFilename.cpp:19-66 | over all strings: a protocol filename is a target ID, a dot and one of twelve extensions |
| ErrorMessage.WaitAccepts | lib/arinc_615a/tftp/ErrorMessage.cpp:121-143 | over all strings: the wait time is n exactly when the tag is followed by a maximal, non-empty run of decimal digits worth n within 16 bits |
| ErrorMessage.AbortAccepts | lib/arinc_615a/tftp/ErrorMessage.cpp:70-108 | the same for abort codes: hexadecimal, and one of the nine listed codes |
| ErrorMessage.NeverBoth | lib/arinc_615a/tftp/ErrorMessage.cpp:70-143 | no string is both |
| ErrorMessage.WaitRoundTrip | lib/arinc_615a/tftp/ErrorMessage.cpp:110-143 | all 16-bit wait times come back, whatever follows but a digit; others are refused |
| ErrorMessage.AbortRoundTrip | lib/arinc_615a/tftp/ErrorMessage.cpp:65-108 | a code comes back if and only if it is one of the nine |
| Layouts.KindIff | lib/arinc_615a/tftp/ErrorMessage.cpp:33-63 | over all strings: which messages have the tag of a wait or an abort and something behind it |
| Layouts.PacketLayout | lib/arinc_615a/find/packets/Packet.cpp:164-189 | opcode, strings with their terminators, 0x10 |
| FindPacket.DecodeThenEncode | lib/arinc_615a/find/packets/Packet.cpp:28-189 | every accepted packet is the encoding of its contents, which are valid |
| FindPacket.EncodeThenDecode | lib/arinc_615a/find/packets/Packet.cpp:67-189 | encoded contents decode to the strings split at their NULs, if and only if the opcode is known and there is a string |
| FindPacket.PacketBijection | lib/arinc_615a/find/packets/Packet.cpp:67-189 | accepted packets and valid contents correspond one to one |
| FindPacket.Packet.FromRaw | lib/arinc_615a/find/packets/Packet.cpp:67-127 | the loop over the octets accepts exactly the packets of the specification and finds their strings |
| FindPacket.Packet.Encode | lib/arinc_615a/find/packets/Packet.cpp:164-189 | opcode, terminated strings, terminator |
| HostOperations.HostOperation.DoAbort | lib/arinc_615a/host/implementation/OperationImpl.cpp:77-94 | stores the reason unless one is pending and cancels the initialisation |
| HostOperations.HostOperation.DoTerminate | lib/arinc_615a/host/implementation/OperationImpl.cpp:96-127 | cancels the initialisation and reports the code of the reason |
| HostOperations.HostOperation.TriggerDlpTimeout | lib/arinc_615a/host/implementation/OperationImpl.cpp:149-157 | arms the timer with the larger of exception time and configured timeout |
| HostOperations.HostOperation.Finish | lib/arinc_615a/host/implementation/OperationImpl.cpp:159-169 | reports, disarms the timer, stops the server |
| HostOperations.HostOperation.IsAborted | lib/arinc_615a/host/implementation/OperationImpl.cpp:186-226 | answers with ABORT and re-arms the timer exactly when a reason is pending, and forgets it |
| HostOperations.HostOperation.CheckRequest | lib/arinc_615a/host/implementation/OperationImpl.cpp:228-247 | refuses exactly the well-formed names of other targets |
| HostOperations.HostOperation.Start | lib/arinc_615a/host/implementation/UploadOperationImpl.cpp:71-76 | resets the flag of the derived class, starts server and initialisation transfer |
| HostOperations.HostOperation.TimerHandler | lib/arinc_615a/host/implementation/OperationImpl.cpp:312-335 | reports a DLP timeout or a timer error |
| HostOperations.HostOperation.InitialisationFileCompleted | lib/arinc_615a/host/implementation/OperationImpl.cpp:376-446 | takes the state to that of the state machine, for every result, file and reaction of the handler |
| HostOperations.HostOperation.Submit | lib/arinc_615a/host/implementation/UploadOperationImpl.cpp:88-126 | load list, answer or request: nothing if one has arrived, an exception if it cannot be encoded, else one transfer of its octets |
| HostOperations.HostOperation.TftpRequest | lib/arinc_615a/host/implementation/InformationOperationImpl.cpp:87-133 | who gets a request, for the four kinds; the information operation goes on after refusing a read |
| HostOperations.HostOperation.StatusFileRequest | lib/arinc_615a/host/implementation/InformationOperationImpl.cpp:135-178 | a pending abort is sent, otherwise a transfer starts and is remembered in front |
| HostOperations.HostOperation.StatusFileCompleted | lib/arinc_615a/host/implementation/UploadOperationImpl.cpp:321-393 | takes the state to that of the state machine, for every transfer, result, file and reaction |
| HostOperations.HostOperation.RemoveStatusTransfer | lib/arinc_615a/host/implementation/DownloadOperationImpl.cpp:162-166 | removes all occurrences and counts them |
| HostOperations.HostOperation.DecodeStatus | lib/arinc_615a/host/implementation/DownloadOperationImpl.cpp:176-192 | code and exception timer through the file class of the operation |
| HostOperations.HostOperation.ListFileRequest | lib/arinc_615a/host/implementation/OperatorDefinedDownloadOperationImpl.cpp:224-269 | cancels the list transfer it knows of and starts a new one |
| HostOperations.HostOperation.ListFileCompleted | lib/arinc_615a/host/implementation/OperatorDefinedDownloadOperationImpl.cpp:271-309 | takes the state to that of the state machine, for both kinds with a list file |
| HostOperations.HostOperation.ClientTransferCompleted | lib/arinc_615a/host/implementation/MediaDefinedDownloadOperationImpl.cpp:225-239 | marks it as sent, or aborts |
| HostOperations.HostOperation.CallHandler | lib/arinc_615a/host/implementation/OperationImpl.cpp:406-407 | runs the calls of the handler up to the first that throws |
| HostOperations.HostOperation.Handle | lib/arinc_615a/host/implementation/OperationImpl.cpp:77-446 | one event takes the object exactly where the state machine goes |
| HostOperations.Run | lib/arinc_615a/host/implementation/OperationImpl.cpp:77-446 | a new object fed with any possible events ends in the state that the state machine reaches |
| OperationSafety.StepKeeps | lib/arinc_615a/host/implementation/OperationImpl.cpp:77-446 | every event keeps the invariant: evidence for every report, exact wait flag, conserved aborts, timer equal to the deadline of the history, announced version, accounted transfers |
| OperationSafety.NeverHangs | lib/arinc_615a/host/implementation/OperationImpl.cpp:376-446 | in every reachable state between start and report the initialisation is outstanding or the timer is armed |
| OperationSafety.SuccessIsAuthentic | lib/arinc_615a/host/implementation/InformationOperationImpl.cpp:218-252 | in every run success is reported only right after a status file that says so, or a list file without any progress status before |
| OperationSafety.PassedOnStatusIsAuthentic | lib/arinc_615a/host/implementation/DownloadOperationImpl.cpp:192-206 | in every run a code that is passed on from a status is the one in the file taken last |
| OperationSafety.WaitFlagIsExact | lib/arinc_615a/host/implementation/InformationOperationImpl.cpp:218-252 | the wait flag is set exactly when an accepted or in-progress status was taken since start |
| OperationSafety.AbortsConserved | lib/arinc_615a/host/implementation/OperationImpl.cpp:77-226 | the ABORT codes sent are those of the accepted requests, in order, but for one exactly when a reason is pending |
| OperationSafety.PendingAbortAnswersStatusRequest | lib/arinc_615a/host/implementation/OperationImpl.cpp:186-226 | a status request that meets a pending abort gets it, starts nothing and re-arms the timer |
| OperationSafety.StatusTransfersAccounted | lib/arinc_615a/host/implementation/UploadOperationImpl.cpp:299-330 | the remembered status transfers are, once each, those begun and not completed; an uninitiated one is never reported |
| OperationSafety.WatchdogIsPatient | lib/arinc_615a/host/implementation/OperationImpl.cpp:149-157 | a timeout is reported no earlier than the larger of exception time and configured timeout after the last trigger |
| OperationSafety.ForeignRequestsDoNothing | lib/arinc_615a/host/implementation/OperationImpl.cpp:228-247 | a request for a valid name of another target changes nothing but for the error sent |
| OperationSafety.PassedOnNamesAreOwn | lib/arinc_615a/host/implementation/OperationImpl.cpp:228-247 | a well-formed name is passed on to the handler only if it is one of this target |
| OperationSafety.TransfersStartByName | lib/arinc_615a/host/implementation/InformationOperationImpl.cpp:87-133 | a request with a well-formed name starts at most one transfer, and only if the name is that of the status file of this target, with no abort pending, or of its list file |
| OperationSafety.MalformedNamesPass | lib/arinc_615a/host/implementation/UploadOperationImpl.cpp:211-228 | in every run a malformed name starts a status transfer exactly when what follows its first dot is the extension of the status file, no abort is pending, and it is a write request or the operation is an information operation |
| OperationSafety.MalformedNamesExist | lib/arinc_615a/files/ProtocolFilename.cpp:19-37 | a name without target ID that has such an extension |
| OperationSafety.WatchdogIsDueIff | lib/arinc_615a/host/implementation/OperationImpl.cpp:149-157 | in every run the timer can expire exactly when both the exception time and the configured timeout have passed since the last trigger, with no report in between |
| OperationAnswers.StatusIsAnswered | lib/arinc_615a/host/implementation/UploadOperationImpl.cpp:340-388 | in every run, by the octets of the file: codes 0x0003, 0x1000, 0x1002, 0x1003, 0x1004 and 0x1005 are reported as they are, once, and stop timer and server; 0x1007 is reported as 0x1004; 1, 2 and 4 report nothing and arm the timer with the later of the two times |
| OperationAnswers.BadStatusIsAnswered | lib/arinc_615a/host/implementation/UploadOperationImpl.cpp:326-393 | in every run a failed status transfer is reported as 0x1004, octets that are no status file change nothing, and nothing is done after a handler that throws |
| OperationAnswers.UninitiatedIsAnswered | lib/arinc_615a/host/implementation/UploadOperationImpl.cpp:326-338 | a completion that belongs to no remembered status transfer is reported as 0x1004, after which only an information operation stops |
| OperationAnswers.RemovalIsComplete | lib/arinc_615a/host/implementation/UploadOperationImpl.cpp:326-330 | removing a transfer from the list of status transfers leaves no occurrence of it, keeps the others, and counts the occurrences |
| OperationAnswers.StatusOctets | lib/arinc_615a/files/download/DownloadOperationStatusFile.cpp:138-181 | code and exception timer are the numbers at fixed places of every accepted status file |
| OperationAnswers.AnUploadCompletes | lib/arinc_615a/host/implementation/UploadOperationImpl.cpp:362-371 | a run of a new upload that reports 0x0003 |
| OperationAnswers.InitialisationIsAnswered | lib/arinc_615a/host/implementation/OperationImpl.cpp:376-446 | by the octets of the file: 0x0001 takes over its version and arms the timer, 0x1000 and 0x1002 are reported as they are, everything else as 0x1004 |
| OperationAnswers.GoodListIsAnswered | lib/arinc_615a/host/implementation/InformationOperationImpl.cpp:359-385 | a list completes an information operation with 0x0003 before any progress status and arms the timer after one |
| OperationAnswers.BadListIsAnswered | lib/arinc_615a/host/implementation/InformationOperationImpl.cpp:326-399 | a bad list is reported as 0x1004 before any progress status of an information operation and otherwise requests an abort |
| OperationAnswers.ClientIsAnswered | lib/arinc_615a/host/implementation/UploadOperationImpl.cpp:258-272 | a load list, answer or request that arrives is marked as sent; one that fails requests an abort by the protocol |
| OperationAnswers.TimerIsAnswered | lib/arinc_615a/host/implementation/OperationImpl.cpp:312-335 | an expired or failed timer is reported as 0x1004 |
| OperationAnswers.StartIsAnswered | lib/arinc_615a/host/implementation/MediaDefinedDownloadOperationImpl.cpp:65-70 | start begins and remembers one initialisation transfer and resets the flag of its kind and nothing else |
| OperationAnswers.WhatCanBeSubmitted | lib/arinc_615a/host/implementation/OperatorDefinedDownloadOperationImpl.cpp:112-152 | which kind of operation takes which payload |
| OperationAnswers.SubmissionIsAnswered | lib/arinc_615a/host/implementation/MediaDefinedDownloadOperationImpl.cpp:106-148 | what is submitted goes out once, unless one has arrived before |
| OperationAnswers.SubmittedIsReadable | lib/arinc_615a/host/implementation/OperatorDefinedDownloadOperationImpl.cpp:112-152 | answer and request decode to the names, in order, and to the user-defined data |
| OperationAnswers.AbortsConservedByNumber | lib/arinc_615a/host/implementation/OperationImpl.cpp:186-226 | in every run the numbers in ABORT messages are, in order, 0x1005 for every accepted request of the operator and 0x1004 for every one of the protocol, but for the last exactly when a reason is stored |
| OperationAnswers.AbortIsAnswered | lib/arinc_615a/host/implementation/OperationImpl.cpp:77-94 | a request is accepted exactly when none is pending, and cancels the initialisation |
| OperationAnswers.TerminateIsAnswered | lib/arinc_615a/host/implementation/OperationImpl.cpp:96-127 | `terminate` reports 0x1005 for the operator and 0x1004 for every other reason |
| OperationAnswers.CallbackIff | lib/arinc_615a/host/implementation/UploadOperationImpl.cpp:180-244 | for every kind, request type and name: the handler is called back if and only if the name is no valid one of another target and it is a read of an upload or a write of a download that it does not look for itself |
| OperationAnswers.InformationRequests | lib/arinc_615a/host/implementation/InformationOperationImpl.cpp:87-133 | what follows each request of an information operation, by what follows the first dot of the name, refused reads included |
| OperationAnswers.UploadRequests | lib/arinc_615a/host/implementation/UploadOperationImpl.cpp:180-244 | the same for uploads |
| OperationAnswers.DownloadRequests | lib/arinc_615a/host/implementation/OperatorDefinedDownloadOperationImpl.cpp:154-222 | the same for both downloads |
| OperationTransfers.ReachableTracked | lib/arinc_615a/host/implementation/OperationImpl.cpp:77-446 | in every run the operation remembers, for initialisation, list and client transfers, the one begun last unless any of its role has come back since, and no transfer is two |
| OperationTransfers.ListRequestCancelsIff | lib/arinc_615a/host/implementation/InformationOperationImpl.cpp:260-317 | in every run a list request cancels the newest list transfer if and only if no list transfer has come back since that one was begun, and nothing else |
| OperationTransfers.OlderListHidesTheNewer | lib/arinc_615a/host/implementation/OperatorDefinedDownloadOperationImpl.cpp:224-309 | in every run: when an older list transfer comes back, the newest one goes on and the next request does not cancel it |
| OperationTransfers.AListIsForgotten | lib/arinc_615a/host/implementation/OperatorDefinedDownloadOperationImpl.cpp:224-309 | a run of a new operation in which this happens while the server still takes requests |
| OperationTransfers.TerminateCancelsIff | lib/arinc_615a/host/implementation/OperationImpl.cpp:96-127 | in every run `terminate` cancels the remembered initialisation and nothing else and forgets nothing; so all outstanding transfers are cancelled if and only if there are no status, list or client transfers and no older initialisations |
| OperationTransfers.AStatusSurvivesTermination | lib/arinc_615a/host/implementation/OperationImpl.cpp:96-127 | a run of each kind of operation with a status transfer that `terminate` does not cancel |
| OperationTransfers.TwoFailuresReportTwice | lib/arinc_615a/host/implementation/UploadOperationImpl.cpp:321-338 | a run of a new upload that reports twice that it did not complete, without any termination |
| OperationWatchdog.StepAnswered | lib/arinc_615a/host/implementation/OperationImpl.cpp:149-169 | in every run only signs of life arm the timer, each for the time the target asked for, and only reports disarm it |
| OperationWatchdog.PromptTargetsAreNotTimedOut | lib/arinc_615a/host/implementation/OperationImpl.cpp:149-157 | over whole runs: a target that gives its next sign of life (accepted or in-progress status, answered status request, accepted initialisation, list) before the larger of exception time and configured timeout has passed is never timed out |
| OperationTally.FinishedOncePerEvent | lib/arinc_615a/host/implementation/UploadOperationImpl.cpp:321-393 | in every run an event calls `finished` at most once besides the terminations that are asked for |
| OperationTally.TakenWereDelivered | lib/arinc_615a/host/implementation/InformationOperationImpl.cpp:180-258 | every status taken was delivered by a completed transfer of the run |
| OperationTally.ProgressMovesTheDeadline | lib/arinc_615a/host/implementation/UploadOperationImpl.cpp:373-381 | a progress status moves the deadline to when both its exception timer and the configured timeout have passed and one only just has; the timer of an accepted status does not count |
| OperationTally.StepTally | lib/arinc_615a/host/implementation/OperationImpl.cpp:159-169 | what one event adds to calls of `finished`, timeouts, statuses taken and files handed over |
| OperationDrain.StepDrains | lib/arinc_615a/host/implementation/OperationImpl.cpp:149-169 | once the server has stopped, every event decreases the weight of what is outstanding by more than handlers submit, every callback uses up one outstanding initialisation, status or list transfer, and completions use up their own calls of `finished` |
| OperationDrain.CallbacksAreBounded | lib/arinc_615a/host/implementation/OperationImpl.cpp:149-169 | in a run after the server has stopped in which nobody calls, callbacks and outstanding initialisation, status and list transfers always add up to the same number |
| OperationDrain.DrainTerminates | lib/arinc_615a/host/implementation/OperationImpl.cpp:149-169 | such a run has at most so many events, apart from passing time, as the weight of what was outstanding and k times the transfers with a callback, if no handler submits more than k times |
| OperationDrain.NoInfiniteRun | lib/arinc_615a/host/implementation/OperationImpl.cpp:149-169 | and whatever handlers do, there is no infinite run: from some point on only time passes |
| OperationDrain.DrainReportsAreBounded | lib/arinc_615a/host/implementation/OperationImpl.cpp:149-169 | in such a run `finished` is called at most once more for each outstanding initialisation, status and list transfer and for an armed timer |
| OperationDrain.ServerStaysDown | lib/arinc_615a/host/implementation/OperationImpl.cpp:159-169 | in such a run the server is not started again |
| OperationDrain.ReportsAgainIff | lib/arinc_615a/host/implementation/OperationImpl.cpp:159-169 | after the server has stopped, some run without calls reports again if and only if an initialisation or status transfer is outstanding, the timer is armed, or, for the information operation, a list transfer is outstanding |
| OperationDrain.SilentRun | lib/arinc_615a/host/implementation/OperationImpl.cpp:159-169 | without these, no run reports again, whatever else completes |
| OperationDrain.TerminateReportsTwice | lib/arinc_615a/host/implementation/OperationImpl.cpp:96-127 | a run that reports twice |
| UploadCommand.AtMostOneLoadList | lib/arinc_615a_commands/operations/UploadOperationCommand.cpp:371-388 | over all runs, restarts included, exactly one load list is handed to TFTP once the command says so, and none before |
| UploadCommand.LoadListIsReadable | lib/arinc_615a_commands/operations/UploadOperationCommand.cpp:371-388 | the list handed over decodes to exactly the selected loads in order and the announced version if an initialisation file was accepted before, and is refused if not |
| UploadCommand.NulFreeIsVisible | lib/arinc_615a_commands/operations/UploadOperationCommand.cpp:371-388 | what the target reads are the very loads if their strings have no NUL |
| UploadCommand.AcceptedStatusSendsTheList | lib/arinc_615a_commands/operations/UploadOperationCommand.cpp:334-388 | the first accepted status makes the command hand over its list, unless it cannot be encoded |
| UploadCommand.NothingElseSends | lib/arinc_615a_commands/operations/UploadOperationCommand.cpp:371-388 | no other event makes the command hand over anything |
| UploadCommand.OperationAloneSendsTwice | lib/arinc_615a/host/implementation/UploadOperationImpl.cpp:88-126 | two load lists submitted in a row both go out, exactly when none has arrived before and the encoder accepts them |
| UploadCommand.JobStepKeeps | lib/arinc_615a_commands/operations/UploadOperationCommand.cpp:334-388 | every event keeps the joint invariant of operation and command |
| UploadCommand.UploadOperationCommand.Status | lib/arinc_615a_commands/operations/UploadOperationCommand.cpp:334-388 | the callback does what the reaction of the model is, and sets the flag only if that did not throw |
| BatchUpload.BatchRefinesList | lib/arinc_615a_commands/operations/BatchUploadOperationCommand.cpp:267-362 | the attempted targets are those of the list specification, the latch is exact, and there are at most as many reports as targets |
| BatchUpload.AttemptedIsPrefix | lib/arinc_615a_commands/operations/BatchUploadOperationCommand.cpp:338-362 | the list specification: a prefix of the order that ends with the first target that does not complete |
| BatchUpload.BatchIsOver | lib/arinc_615a_commands/operations/BatchUploadOperationCommand.cpp:267-362 | a finished batch has attempted every target, in ascending order, or its last one did not complete |
| BatchUpload.TargetsGetTheirLoads | lib/arinc_615a_commands/operations/BatchUploadOperationCommand.cpp:205-295 | after the check every address is found; each target is sent its own loads, at most once |
| BatchUpload.LatchIsExactIff | lib/arinc_615a_commands/operations/BatchUploadOperationCommand.cpp:267-362 | with any reports at any time, the latch equals one while an operation runs and zero otherwise throughout the run if and only if no report comes when none is running |
| BatchUpload.SecondReportBreaksTheLatch | lib/arinc_615a_commands/operations/BatchUploadOperationCommand.cpp:338-362 | any second report after a failed one takes the latch out of step, a second failure takes it below zero |
| BatchUpload.StatusIsAnswered | lib/arinc_615a_commands/operations/BatchUploadOperationCommand.cpp:404-421 | a status makes the command hand over its list exactly if its code is 0x0001, none has gone out, and it can |
| BatchUpload.SortedIsOrder | lib/arinc_615a_commands/operations/BatchUploadOperationCommand.cpp:275 | taking the first of the map again and again goes through all targets in ascending order |
| BatchRun.OperationsDriveTheBatch | lib/arinc_615a_commands/operations/BatchUploadOperationCommand.cpp:267-422 | a batch together with all operations it has started, each taking events before and after its report: if no report leaves anything behind that can report again, the command goes through a run of its list specification with an exact latch |
| BatchRun.JointStepKeeps | lib/arinc_615a_commands/operations/BatchUploadOperationCommand.cpp:267-422 | every event of the current or of a past operation keeps the joint invariant |
| BatchRun.OneListEach | lib/arinc_615a_commands/operations/BatchUploadOperationCommand.cpp:364-422 | in such a run the running operation has the loads of its target, and has handed them over once exactly if the command says so |
| BatchRun.ACleanRun | lib/arinc_615a_commands/operations/BatchUploadOperationCommand.cpp:267-362 | such a run of any batch: the first initialisation fails and the batch is over |
| BatchRun.PastIsQuietIff | lib/arinc_615a_commands/operations/BatchUploadOperationCommand.cpp:338-362 | the condition is exact: a past upload cannot tell the command anything any more if and only if it has left nothing behind |
| BatchRun.TheLatchCanBreak | lib/arinc_615a_commands/operations/BatchUploadOperationCommand.cpp:338-362 | a run of any batch whose first target has a valid ID in which two failing status transfers count the latch to minus one |
| BatchUpload.BatchUploadOperationCommand.MissingTarget | lib/arinc_615a_commands/operations/BatchUploadOperationCommand.cpp:205-214 | finds the first target that is not in the targets list, if there is one |
| BatchUpload.BatchUploadOperationCommand.Execute | lib/arinc_615a_commands/operations/BatchUploadOperationCommand.cpp:205-217 | starts the batch if and only if no target is missing |
| BatchUpload.BatchUploadOperationCommand.NextBatchTarget | lib/arinc_615a_commands/operations/BatchUploadOperationCommand.cpp:267-316 | takes the first target with its loads and starts a new operation for it, or counts the latch down |
| BatchUpload.BatchUploadOperationCommand.Finished | lib/arinc_615a_commands/operations/BatchUploadOperationCommand.cpp:338-362 | goes on after a completed target, else counts the latch down, whether or not an operation is set |
| BatchUpload.BatchUploadOperationCommand.Status | lib/arinc_615a_commands/operations/BatchUploadOperationCommand.cpp:364-422 | submits the loads of the running target on the first accepted status |

## Left out

- The class hierarchy of the operations: there is one class with the fields of the base class and of all derived
  classes, because the methods differ only where `kind` is asked for.
- Handlers as objects: what a handler does when it is called back is a list of calls that the event carries, so that
  every reaction is covered. A handler does not call `start`, and `finished` makes no calls back. Calls made from
  `fileRequest` and `initialisationDeferred` are the same as calls right after the event.
- Everything below TFTP: sockets, retries, option negotiation, the port option, dallying. Transfers are IDs that begin,
  may be cancelled, and complete once with a result. A cancelled or re-armed timer does not expire any more.
- `initialise` is taken not to throw; its set-up only logs in that case.
- Data file transfers: `fileTransfer`, the bookkeeping of the commands about them, and the lookup of files in ARINC 665
  media. The handler's `fileRequest` is an entry in the history.
- ARINC 649 check values: the integrity flag has no influence on what the operation does next.
- Comparing the version of a status or list file with the announced one: the code only warns.
- Statistics, logging, console output, command lines, JSON, `FinalStatus` and the text tables.
- Short reads of numbers reject the file, and numbers are big-endian; the helpers that do this are not part of this
  model.
- The targets list of the batch command is a map from names; the ordering of target IDs inside that map is not part of
  this model. The abort and terminate connections that the batch command makes for each target are left out, too, and
  so is a status that reaches it when no operation is set, which the source excludes by an assertion.
- A failed decoder leaves the object half filled in; nothing is said about these fields but what the list below says.
- ListFiles.UploadOperationRequestFile.Decode: after a failure only says that the old loads are still in front.
- ListFiles.DownloadOperationRequestFile.Decode: after a failure only says that the old files are still in front and
  that the user-defined data is unchanged.
- ListFiles.DownloadOperationAnswerFile.Decode: after a failure only says that the old files are still in front.
- ListFiles.DownloadOperationListFile.Decode: after a failure only says that the old files are still in front.
- BatchUpload.BatchRefinesList: takes the reports as events and assumes that none comes when no operation is running;
  `BatchRun.OperationsDriveTheBatch` derives that from what the operations leave behind.
- BatchRun.OperationsDriveTheBatch: nobody terminates, and an operation is not aborted after its report; a past
  operation calls its handler back only to report. That a late status would be answered through the operation that is
  then current is not part of this model; in the runs the result speaks of, no status can come that late.
