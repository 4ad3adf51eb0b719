# Verified models of the voice client and the libraries it carries

The client streams audio to a conversion server: samples go through ring buffers
between the audio thread and the window, travel as binary attachments of
Socket.IO packets over masked WebSocket frames, and are described by JSON texts
that are built in a memory pool. This project models these parts, one module per
file, and proves what they promise. `dafny verify dfyconfig.toml` checks all of
it.

Code that updates fields, arrays and streams is a class or method with the same
branches and loops; each is proved against a function of its inputs or old
state. The lemmas then state what those functions mean.

- **JSON.** `Bytes` and `JsonTypes` hold the text stream and the events.
  `JsonScan` and `JsonGrammar` say what a recursive parser computes that stops at
  its first error, `JsonIterative` what the table-driven one does;
  `JsonStringLoop` is the string loop of the code, which does not always stop
  there, and `JsonFaults` the texts on which that shows. `JsonReader` is the
  reader with its cursor, errors and stack. `JsonDocument` is the document with its
  number flags and its stack machine, `JsonWriter` the printer with its level
  counters. `JsonRoundTrip` and `JsonValues` compose them: the two parsers agree
  on every text, printing and parsing undo each other, every accepted text
  stands for one value, integers are exact at every limit. `JsonSyntax` has RFC
  4627 as derivations with their meaning and proves that they are what is
  accepted; `JsonSpelling` says what the writer writes by the same derivations,
  and `JsonErrors` where each error is reported.
- **Socket.IO.** `SioMessage` lifts binary leaves out of a message tree and puts
  them back; `SioPacket` prints headers, sends frames and reassembles them. A
  stream of packets is delivered as it was sent; `SioWire` has the same packets
  byte by byte. `SioSocket` keeps packets in order and calls each acknowledgement
  callback once; `SioClient` bounds reconnects and delays and never reconnects
  after a close, and `SioReconnect` says when it does.
- **Audio.** `RingBuffer` is the array with its positions, proved to be a queue;
  `AudioCallers` has the playback callback and the drain loops. `RingSteps` is
  the same buffer with a producer and a consumer that interleave at every shared
  access; `RingAlone` relates the two.
- **WebSocket.** `WsMask` proves the word-wise and circular masks equal to the
  octet-wise one on both byte orders and word sizes. `Utf8` proves that the
  automaton accepts exactly the UTF-8 of RFC 3629, in any pieces, and
  `Utf8Decoder` that the other decoder of the repository agrees with it.
- **Memory.** `MemoryPool` proves that live blocks never overlap and keep their
  bytes over every run of requests. `Patches` is an overwritten stretch of an
  array, which the copying modules share.
- **Client state.** `DeviceLists` mirrors device lists through queued signals;
  `LocalConfig` writes and reads the settings file, and `ConfigFile` says what
  stands in it.

Some promises turned out not to hold in full. The model keeps the code as it is,
shows the failing input, and proves when the promise does hold:

- Behind a bad hexadecimal digit in a string the reader goes on scanning. It may
  report a second error, which its assertion forbids, or read behind the text
  (`JsonFaults`); it does neither exactly on the condition of `OneErrorExactly`.
  A received packet may hold such a text (`FaultyEvents`).
- A message object with a `_placeholder` entry other than `false` is not
  restored (`LiftAndRestore`, an equivalence).
- A frame that arrives between the frames of a binary packet is taken for an
  attachment, and nothing is lost exactly if it equals that attachment
  (`StrayFrameIsSwallowed`).
- The pool rounds sizes with a 32-bit mask, so that sizes above 2^32 - 4 get too
  little room (`AlignIsEnough` and `ResizedSound`, equivalences;
  `HugeBlockOverlaps`).
- Discarding more than is queued starts the ring over, one field after the other.
  With a write in between, or inside a write, old samples are read for new ones
  (`WriteBetweenCorrupts`, `UnguardedDiscardCorrupts`), or a write copies more
  than it was given (`LateMeasureStrays`); `StartOverKeeps` says exactly when the
  ring is right again. The callers' check before discarding excludes all of it
  (`GuardedSafe`).
- A dial that cannot start, for an address that is refused, leaves the client
  opening: it neither retries nor can be connected until it is closed
  (`NeverStarts`, `ClosedThenStarts`).
- With a chunk size of zero and queued input the discarding loop makes no
  progress (`DiscardProgress`).
- A device that is added or removed between the end of reading the registry and
  the filling of the boxes is shown twice or takes another entry with it
  (`LateAdditionRepeats`, `LateRemovalDeletes`); the boxes show the lists ever
  after exactly on the condition of `FromTheStart`.
- A setting whose value is the word `none` is not restored (`SaveThenLoad`), and
  an empty history is misread (`MisreadsEmptyOnly`, an equivalence).
- A copied value differs from its original in number flags if and only if those
  did not follow from the integers (`DeepCopyIsFaithful`), as those of a number
  built from its type alone do not (`DefaultNumberChanges`).

## Model

| member | source | states |
|---|---|---|
| `JsonIterative.IterativeAgreesWithRecursive` | src/lib/rapidjson/include/rapidjson/reader.h:399-428 | On every text, accepted or refused, the table-driven parser and the recursive parser give the same verdict and emit the same events, counts included; and if one of them meets a bad hexadecimal digit, both report it at the same place. |
| `JsonIterative.StepResumes` | src/lib/rapidjson/include/rapidjson/reader.h:1066-1230 | One transition of the table leaves unchanged what the recursive parser would still do from the same point; a transition to the error state is taken exactly where the recursive parser fails. |
| `JsonIterative.RunResumes` | src/lib/rapidjson/include/rapidjson/reader.h:1394-1424 | From any well-formed configuration the loop ends as the recursive parser would end from there. |
| `JsonIterative.StepKeepsShape` | src/lib/rapidjson/include/rapidjson/reader.h:1233-1372 | The stack stays a list of return states and counts that matches the nesting, with a return to the start state at the bottom. |
| `JsonReader.GenericReader.IterativeParse` | src/lib/rapidjson/include/rapidjson/reader.h:1394-1424 | The loop over tokens, with its stack of state and count slots that the bytes of strings share, computes the outcome of the table and so agrees with the recursive parser; whatever the exit, the stack is cleared. |
| `JsonReader.GenericReader.Transit` | src/lib/rapidjson/include/rapidjson/reader.h:1233-1372 | One transition on the real stack slots does what the configuration step does, and fails exactly when it fails. |
| `JsonReader.GenericReader.Parse` | src/lib/rapidjson/include/rapidjson/reader.h:399-428 | For every text, events, position and first reported error are those of the grammar; there is no second report and no read behind the text if and only if that error is no bad hexadecimal digit or the rest of the string recovers. Whatever the exit, the stack is cleared. |
| `JsonReader.GenericReader.ParseValue` | src/lib/rapidjson/include/rapidjson/reader.h:979-989 | Dispatch on the first byte; the outcome is the one of the grammar from the cursor on. |
| `JsonReader.GenericReader.ParseObject` | src/lib/rapidjson/include/rapidjson/reader.h:473-519 | The member loop emits the events of an object with the exact member count or stops at the error of the grammar. |
| `JsonReader.GenericReader.ParseArray` | src/lib/rapidjson/include/rapidjson/reader.h:523-555 | The element loop emits the events of an array with the exact element count or stops at the error of the grammar. |
| `JsonReader.GenericReader.ParseStringToStream` | src/lib/rapidjson/include/rapidjson/reader.h:672-728 | The loop, which does not look at an error already reported, has exactly the ending of StringLoop: a closed string whose bytes and terminator lie on the stack, a reported error, a second report, or a cursor behind the text. |
| `JsonReader.GenericReader.ParseHex4` | src/lib/rapidjson/include/rapidjson/reader.h:598-616 | Four hexadecimal digits of either case are read as their value; any other byte is reported where it stands and counts as zero, and the cursor is behind it. |
| `JsonReader.GenericReader.ParseUnicode` | src/lib/rapidjson/include/rapidjson/reader.h:696-708 | One code unit or a surrogate pair, with every report the code makes on the way; says whether the loop goes on. |
| `JsonReader.GenericReader.Report` | src/lib/rapidjson/include/rapidjson/reader.h:95-101 | A second report fails the assertion that there is no error yet; the first one stays. |
| `JsonReader.GenericReader.ParseNumber` | src/lib/rapidjson/include/rapidjson/reader.h:776-972 | The number token and its event are those of the grammar: integer kind, double or error. |
| `JsonReader.GenericReader.IntegerPart` | src/lib/rapidjson/include/rapidjson/reader.h:787-862 | In 32- and 64-bit accumulators that never overflow: the integer part is read to its end, the value is exact, and the width flags say exactly whether it fits. |
| `JsonReader.GenericReader.Digits32` | src/lib/rapidjson/include/rapidjson/reader.h:799-822 | The 32-bit loop stops exactly before the digit that would overflow, with the sign-dependent limit. |
| `JsonReader.GenericReader.Digits64` | src/lib/rapidjson/include/rapidjson/reader.h:830-853 | The 64-bit loop stops exactly before the digit that would overflow, with the sign-dependent limit. |
| `JsonReader.GenericReader.SkipWhitespace` | src/lib/rapidjson/include/rapidjson/reader.h:253-259 | Moves behind the white space. |
| `JsonReader.GenericReader.ParseString` | src/lib/rapidjson/include/rapidjson/reader.h:643-668 | Emits a string or a name with the decoded bytes. |
| `JsonSyntax.AcceptsExactly` | src/lib/rapidjson/include/rapidjson/reader.h:399-428 | The texts that are accepted are exactly those that RFC 4627 derives, with any value for a root and blanks, tabs, line feeds and carriage returns before, between and behind the tokens; up to a NUL; and what is reported is what the derivation means. The derivations are given by byte numbers. |
| `JsonSyntax.TextReads` | src/lib/rapidjson/include/rapidjson/reader.h:253-259 | Every text that can be derived is read to its end as what it means, whatever its white space. |
| `JsonSyntax.TextDerives` | src/lib/rapidjson/include/rapidjson/reader.h:473-555 | Every text that is accepted can be derived: between its tokens there is nothing but the four bytes of white space. |
| `JsonSyntax.TreeReads` | src/lib/rapidjson/include/rapidjson/reader.h:979-989 | A value in any derivable form, with the escapes, code units, fractions and exponents that the writer never writes, reads as what it means wherever it stands. |
| `JsonSyntax.SpelledReads` | src/lib/rapidjson/include/rapidjson/reader.h:672-728 | Characters written as themselves, by a letter, by four hexadecimal digits of either case or by a surrogate pair read as their bytes. |
| `JsonSyntax.NumeralReads` | src/lib/rapidjson/include/rapidjson/reader.h:776-972 | A number in any form of the grammar is reported in the narrowest kind that holds it, or as a double. |
| `JsonSpelling.SpacedReads` | src/lib/rapidjson/include/rapidjson/reader.h:253-259 | Whatever of the four bytes is put before, between and behind the tokens of a printed value, the text is accepted to its end with the events of the printed text and builds the value. |
| `JsonErrors.EmptyRefused` | src/lib/rapidjson/include/rapidjson/reader.h:408-412 | A text of white space is an empty document, reported at its end. |
| `JsonErrors.RestRefused` | src/lib/rapidjson/include/rapidjson/reader.h:417-423 | Anything else than white space behind a text is reported where it stands. |
| `JsonErrors.StrangeValue` | src/lib/rapidjson/include/rapidjson/reader.h:979-989 | A byte that starts no value is reported where it stands. |
| `JsonErrors.BrokenWord` | src/lib/rapidjson/include/rapidjson/reader.h:558-594 | A word that breaks off is reported at the first byte that is wrong. |
| `JsonErrors.AfterElement` | src/lib/rapidjson/include/rapidjson/reader.h:543-553 | Behind any element of any array, something else than a comma or bracket is an error of that kind, reported behind the byte. |
| `JsonErrors.NoName` | src/lib/rapidjson/include/rapidjson/reader.h:489-492 | A missing member name is reported where it is missing. |
| `JsonErrors.AfterName` | src/lib/rapidjson/include/rapidjson/reader.h:498-500 | A missing colon is reported behind the byte in its place. |
| `JsonErrors.AfterMember` | src/lib/rapidjson/include/rapidjson/reader.h:509-517 | Behind any member something else than a comma or brace is an error of that kind, reported behind the byte. |
| `JsonErrors.StringRefused` | src/lib/rapidjson/include/rapidjson/reader.h:690-721 | Behind any characters that are right: the end of the text, a control byte, an unknown escape and a high code unit without a low one each have their error and place. |
| `JsonErrors.TailRefused` | src/lib/rapidjson/include/rapidjson/reader.h:868-940 | A point or an exponent without a digit has its error and place. |
| `JsonErrors.TooBigRefused` | src/lib/rapidjson/include/rapidjson/reader.h:857-936 | A number is refused as too big exactly beyond the bounds of `Bearable`. |
| `JsonErrors.ErrorsAreKin` | src/lib/rapidjson/include/rapidjson/reader.h:1375-1391 | On every refused text the two parsers report the same error at the same byte or the one in front; only where a comma, colon or closing bracket stands for a value the table-driven one reports an empty document at the root and an unspecific error inside. |
| `JsonStringLoop.StringScans` | src/lib/rapidjson/include/rapidjson/reader.h:687-726 | For every text and every string in it: the loop of the code ends as the grammar says, except behind a bad hexadecimal digit, where what follows is computed from the text alone: a second report at once in the low half of a pair, else what the rest of the string holds by itself. |
| `JsonStringLoop.OneErrorExactly` | src/lib/rapidjson/include/rapidjson/reader.h:598-616 | Exactly one report and no read behind the text if and only if the error is no bad digit, or the digit is in no low half of a pair and the text behind it scans to a closing quote. |
| `JsonStringLoop.LoopAfterError` | src/lib/rapidjson/include/rapidjson/reader.h:687-726 | With an error already reported the loop reports again exactly where the rest of the string fails by itself. |
| `JsonStringLoop.FirstHalf` | src/lib/rapidjson/include/rapidjson/reader.h:697-702 | That a bad digit is in no low half can be read off the text in front of it, by an escape of a high surrogate whose backslash is not itself escaped. |
| `JsonStringLoop.SecondHalf` | src/lib/rapidjson/include/rapidjson/reader.h:697-702 | So can that it is in one. |
| `JsonFaults.DocumentFault` | src/lib/rapidjson/include/rapidjson/reader.h:399-428 | For whole texts the same equivalence, and both parsers go astray alike. |
| `JsonFaults.LowHalfReportsTwice` | src/lib/rapidjson/include/rapidjson/reader.h:702-704 | The string \ud800\uZ reports the surrogate while the bad digit is still reported. |
| `JsonFaults.TwoErrorsReportTwice` | src/lib/rapidjson/include/rapidjson/reader.h:598-616 | The string \uZ\q reports the bad digit and then the bad escape. |
| `JsonFaults.CutOffIsLeft` | src/lib/rapidjson/include/rapidjson/reader.h:601-612 | On a text that ends behind \u the terminator is taken and bytes behind it are read. |
| `JsonFaults.OneErrorRecovers` | src/lib/rapidjson/include/rapidjson/reader.h:598-616 | The string \uZ reports the bad digit alone. |
| `JsonReader.GenericReader.HandleError` | src/lib/rapidjson/include/rapidjson/reader.h:1375-1391 | Reports an error that was not reported yet. |
| `JsonValues.IntegerTokenExact` | src/lib/rapidjson/include/rapidjson/reader.h:787-862 | For an integer token of any length: the kind changes exactly at 2^31, 2^32, 2^63 and 2^64 and the reported integer is the exact value; beyond that a double, and an error only behind a tenth of the largest double. |
| `JsonValues.ParsedBuildsOneRoot` | src/lib/rapidjson/include/rapidjson/document.h:1736-1746 | The events of every accepted text build exactly one root without popping what is not there, so the assertion on the stack size holds; all number flags follow from the integers. |
| `JsonValues.ReadPrintRead` | src/lib/rapidjson/include/rapidjson/document.h:1736-1746 | The value an accepted text without doubles stands for is reached again when it is printed and parsed. |
| `JsonRoundTrip.PrintThenParse` | src/lib/rapidjson/include/rapidjson/writer.h:114-174 | Printing then parsing is the identity: for every value without doubles, with any byte strings and repeated names, the writer text parses to events that rebuild the value with the flags its integers call for. |
| `JsonRoundTrip.PrintedTextParses` | src/lib/rapidjson/include/rapidjson/reader.h:399-428 | The text of a printable value is consumed whole by both parsers with the events of the value. |
| `JsonRoundTrip.ValueReads` | src/lib/rapidjson/include/rapidjson/reader.h:979-989 | The text of a value is read as that value wherever it stands, given that no digit, point or exponent follows. |
| `JsonRoundTrip.StringReads` | src/lib/rapidjson/include/rapidjson/writer.h:250-316 | Unescaping undoes escaping for every byte string, NULs, quotes and control bytes included. |
| `JsonRoundTrip.NumberReads` | src/lib/rapidjson/include/rapidjson/reader.h:776-972 | The decimal text of a 64-bit integer is read as that integer in the kind that its size calls for. |
| `JsonWriter.WriterPrints` | src/lib/rapidjson/include/rapidjson/writer.h:114-174 | From a blank writer the events of any value violate no assertion, close every level, and leave the text of a separate recursive printer. |
| `JsonWriter.EventsWrite` | src/lib/rapidjson/include/rapidjson/writer.h:323-341 | Inside any open levels the events of a value append separator and text, and count one value in the level. |
| `JsonSpelling.SpellIsPrint` | src/lib/rapidjson/include/rapidjson/writer.h:176-341 | The text of any value is, token by token and by byte numbers, the derivation without white space: named escapes for seven bytes, codes with capital digits for the other controls, plain decimal integers; and it means the value. |
| `JsonWriter.OneRootOnly` | src/lib/rapidjson/include/rapidjson/writer.h:336-340 | Behind a whole value no further event is taken. |
| `JsonWriter.NamesAreStrings` | src/lib/rapidjson/include/rapidjson/writer.h:323-335 | Behind any number of members exactly a string, a name or the end of the object is taken. |
| `JsonWriter.ArraysTakeAll` | src/lib/rapidjson/include/rapidjson/writer.h:323-341 | Behind any number of elements everything is taken but the end of an object. |
| `JsonWriter.Writer.Prefix` | src/lib/rapidjson/include/rapidjson/writer.h:323-341 | Puts comma or colon by kind and parity of the level and counts the value; at the root it marks the only root. |
| `JsonWriter.Writer.WriteString` | src/lib/rapidjson/include/rapidjson/writer.h:250-316 | The loop appends the quoted and escaped bytes of the string. |
| `JsonWriter.Writer.OnStart` | src/lib/rapidjson/include/rapidjson/writer.h:140-163 | Puts the separator, opens a level and puts the bracket. |
| `JsonWriter.Writer.OnEnd` | src/lib/rapidjson/include/rapidjson/writer.h:148-174 | Closes the level of the same kind and puts the bracket. |
| `JsonWriter.Writer.OnString` | src/lib/rapidjson/include/rapidjson/writer.h:128-133 | Puts the separator and the quoted string. |
| `JsonWriter.Writer.OnScalar` | src/lib/rapidjson/include/rapidjson/writer.h:114-126 | Puts the separator and the text of a null, truth value or number. |
| `JsonDocument.DeepCopyIsFaithful` | src/lib/rapidjson/include/rapidjson/document.h:1433-1473 | Running the events of a value into the stack builder leaves one root equal to the original but for number flags that depend on the integers alone; the copy is equal exactly when the original was flagged that way. |
| `JsonDocument.DefaultNumberChanges` | src/lib/rapidjson/include/rapidjson/document.h:457-467 | An array that holds the number built from its type alone, which claims every kind, is copied as an array with the integer 0, which does not claim to be a double. |
| `JsonDocument.EventsBuild` | src/lib/rapidjson/include/rapidjson/document.h:1872-1904 | From any stack the events of a value push exactly that value. |
| `JsonDocument.MaskBounds` | src/lib/rapidjson/include/rapidjson/document.h:499-535 | The bit masks by which the integer constructors set their flags are the bounds 2^31, 2^32 and 2^63. |
| `JsonDocument.FlagsSay` | src/lib/rapidjson/include/rapidjson/document.h:500-543 | A number built from an integer claims a kind exactly if that kind holds it. |
| `JsonDocument.Document.OnEndObject` | src/lib/rapidjson/include/rapidjson/document.h:1892-1896 | Pops names and values in turn and makes them the members of the object below, in order. |
| `JsonDocument.Document.OnEndArray` | src/lib/rapidjson/include/rapidjson/document.h:1900-1904 | Pops the elements and makes them the array below, in order. |
| `JsonDocument.Document.Consume` | src/lib/rapidjson/include/rapidjson/document.h:1872-1904 | The handler methods, run over an event sequence, leave the stack of the builder function. |
| `JsonDocument.Document.OnScalar` | src/lib/rapidjson/include/rapidjson/document.h:1872-1890 | Pushes the node of a scalar, a name or an empty container. |
| `SioMessage.LiftAndRestore` | src/sio/internal/sio_packet.cpp:48-189 | With other attachments before and behind: lifting the binaries out of a message and putting them back gives the message again if and only if no object maps _placeholder to anything but false. |
| `SioMessage.NumbersCount` | src/sio/internal/sio_packet.cpp:48-130 | The placeholder numbers of a document are start to end - 1, once each, in traversal order. |
| `SioMessage.Restored` | src/sio/internal/sio_packet.cpp:132-189 | Reading a lifted document from any list that holds its attachments at their numbers restores exactly the genuine messages. |
| `SioMessage.RestoredFromAny` | src/sio/internal/sio_packet.cpp:132-189 | From any list that is long enough a genuine message is restored with the bytes of the list in its leaves, in order; it is the message itself if and only if those are its own bytes. |
| `SioWire.LeavesRead` | src/sio/internal/sio_packet.cpp:132-189 | Each kind of document node becomes the message of its kind; a marked object becomes the attachment with its number, nothing beyond the list, and fails an assertion without a number. |
| `SioWire.LastMemberWins` | src/sio/internal/sio_packet.cpp:160-172 | Of members with the same name the last one is kept, and entries come in ascending order. |
| `SioWire.LessMeans` | src/sio/internal/sio_packet.cpp:70-80 | Keys are in the order of their first differing byte. |
| `SioMessage.Attachments.AcceptMessage` | src/sio/internal/sio_packet.cpp:82-130 | The recursive traversal builds the document and appends the binaries to the shared list without touching earlier ones. |
| `SioMessage.Attachments.AcceptArray` | src/sio/internal/sio_packet.cpp:60-68 | The loop over items numbers each item behind the attachments of those before it. |
| `SioMessage.Attachments.AcceptObject` | src/sio/internal/sio_packet.cpp:70-80 | The loop over map entries numbers each value behind the attachments of those before it. |
| `SioMessage.Attachments.AcceptBinary` | src/sio/internal/sio_packet.cpp:48-58 | Puts a placeholder with the next number in place and appends the bytes. |
| `SioPacket.StreamRoundTrip` | src/sio/internal/sio_packet.cpp:444-517 | The frames of any sequence of packets, one after the other, deliver exactly those packets in order and leave nothing half received. |
| `SioPacket.PacketRoundTrip` | src/sio/internal/sio_packet.cpp:349-400 | A packet is delivered once, as it was sent, and not before its last frame. |
| `SioWire.FramesOnWire` | src/sio/internal/sio_packet.cpp:349-400 | What is sent for any packet, by byte numbers: 4, the kind, with attachments their number and a dash, the namespace unless it is the root, a comma if anything follows, the identifier, the message as JSON text; and then each attachment as it is. |
| `SioWire.ArrivesAsSent` | src/sio/internal/sio_packet.cpp:267-347 | An event arrives as an event and an acknowledgement as an acknowledgement, as the binary kind if and only if it has attachments, with its namespace, identifier and message. |
| `SioWire.CarriedKinds` | src/sio/internal/sio_packet.cpp:191-201 | A packet carried as an event is sent as kind 2, or 5 with attachments, and an acknowledgement as 3, or 6. |
| `SioWire.BodyIsWire` | src/sio/internal/sio_packet.cpp:48-130 | The text of a message is its JSON text, in which each attachment is an object with a mark and its number. |
| `SioWire.StrangeKind` | src/sio/internal/sio_packet.cpp:276-280 | A kind that is no digit from 0 to 6 delivers a packet with nothing in it. |
| `SioWire.CountReads` | src/sio/internal/sio_packet.cpp:285 | The attachment count is read behind blanks and a plus sign, up to the first other byte, if it fits 64 bits. |
| `SioWire.IdentifierReads` | src/sio/internal/sio_packet.cpp:323-345 | Digits in front of the document are the identifier, anything else is none, and the code throws beyond 31 bits; the document is read at once, or kept in a binary packet. |
| `SioWire.KindStands` | src/sio/internal/sio_packet.cpp:276-288 | The kinds without attachments; and those with, whose count goes up to the first dash of the text and is cut to 32 bits. Without a dash the header is read once more from its start. |
| `SioWire.DocumentStands` | src/sio/internal/sio_packet.cpp:290-321 | A brace, bracket or quote in front of any slash starts a document for the root namespace; without these four there is neither message nor identifier. |
| `SioWire.NamespaceStands` | src/sio/internal/sio_packet.cpp:297-316 | A slash in front of them starts a namespace, which ends at the first comma of the whole text, or at the end of the text if that comma stands in front of it; only behind the comma a document is looked for. |
| `SioWire.ControlStands` | src/sio/internal/sio_packet.cpp:267-276 | Any other frame is a packet with its number, negative for bytes above 127. |
| `SioWire.DroppedAtRest` | src/sio/internal/sio_packet.cpp:476-511 | Any number of binary frames in front of a packet are dropped, and it is delivered all the same. |
| `SioPacket.TextParses` | src/sio/internal/sio_packet.cpp:267-347 | The text frame of a packet yields the packet, or everything of it but the attachments. |
| `SioPacket.BufferArrives` | src/sio/internal/sio_packet.cpp:247-265 | Each attachment shortens the wait by one; the last one completes the packet with the message that was sent. |
| `SioPacket.BodyRestores` | src/sio/internal/sio_packet.cpp:255-259 | Document text and attachments give the message back through printer, parser and document. |
| `SioPacket.HeadParses` | src/sio/internal/sio_packet.cpp:267-286 | The frame, kind and attachment count digits are read as they were written. |
| `SioPacket.NspParses` | src/sio/internal/sio_packet.cpp:288-313 | A namespace ends at the first comma of the frame and an id in front of the document is found behind it. |
| `SioPacket.StrayFrameIsSwallowed` | src/sio/internal/sio_packet.cpp:476-497 | Before any attachment, the only one included, a further frame is taken for it: the wait gets shorter, or the packet is delivered with the stray bytes in that leaf. Nothing is lost if and only if they are the bytes of that attachment. |
| `SioPacket.StrayFrameShifts` | src/sio/internal/sio_packet.cpp:247-265 | Over the whole packet: behind the stray frame every attachment is one place too far, and the packet is delivered before its last frame. |
| `SioPacket.AnyFramesFill` | src/sio/internal/sio_packet.cpp:247-265 | Any frames that arrive while a packet waits fill the places of its attachments in order and complete it. |
| `SioPacket.PacketManager.Encode` | src/sio/internal/sio_packet.cpp:444-474 | Sends the text frame of the packet first and then its attachments, each marked as text or binary. |
| `SioPacket.PacketManager.PutPayload` | src/sio/internal/sio_packet.cpp:476-517 | Dispatches any frame by its first byte and by whether a packet waits, as the receiving state machine does; says exactly when the code throws on a number, fails an assertion on the document or in its reader, or reads the document beyond its end, and then delivers nothing. |
| `SioPacket.PacketImpl.Accept` | src/sio/internal/sio_packet.cpp:349-400 | Lifts the binaries, determines the kind in place, and puts header and document together: text and attachments are the frames of the packet. |
| `SioPacket.PacketImpl.Carrying` | src/sio/internal/sio_packet.cpp:191-201 | An event or acknowledgement whose kind is not determined yet. |
| `SioPacket.PacketImpl.DoParse` | src/sio/internal/sio_packet.cpp:267-286 | Fills the object from any text frame, with frame and kind as signed differences, and a count as std::stoul reads it and without a dash if there is none; says whether attachments are to follow, or that the code throws, fails an assertion or reads beyond the document. |
| `SioPacket.PacketImpl.DoParseNsp` | src/sio/internal/sio_packet.cpp:288-318 | Finds namespace, id and document by searching for their first bytes, on any text; fails exactly where the rest does. |
| `SioPacket.PacketImpl.DoParseDocument` | src/sio/internal/sio_packet.cpp:319-346 | Reads the id, keeps the document text of a binary packet, reads the message of any other; fails exactly on an id beyond 31 bits, a document on which an assertion fails, and a text on which the reader reports a second error or goes beyond the end. |
| `SioPacket.PacketImpl.DoParseBuffer` | src/sio/internal/sio_packet.cpp:247-265 | Counts an attachment in and restores the message with the last one, or fails exactly where an assertion on the document fails or the reader does not stop at its error. |
| `SioPacket.FaultyExactly` | src/sio/internal/sio_packet.cpp:341-345 | A document fails in its reader if and only if its error is a bad hexadecimal digit behind which the string does not close without error. |
| `SioPacket.FaultyEvents` | src/sio/internal/sio_packet.cpp:341-345 | Three received events whose documents end in a failing assertion of the reader or are read beyond their end; with one bad digit alone the document becomes null and is delivered. |
| `RingBuffer.Conservation` | src/u_ringbuffer.cpp:47-337 | Over any run: what was removed, followed by what is queued, is what was there followed by what was accepted; the queue never outgrows the array. |
| `RingBuffer.Perform` | src/u_ringbuffer.cpp:47-337 | The array with its positions performs any run of operations as the queue does, and hands out the same samples. |
| `RingBuffer.AudioRing.constructor` | src/u_ringbuffer.cpp:15-40 | Half a second plus five milliseconds of silence, empty, with the gate shut. |
| `RingBuffer.AudioRing.WriteAudioData` | src/u_ringbuffer.cpp:47-114 | Appends the samples to the queue in one or two copies, or refuses all of them and changes nothing; opens the gate at the prefill. |
| `RingBuffer.AudioRing.WriteRawData` | src/u_ringbuffer.cpp:240-293 | The same for raw data, with the overflow test first. |
| `RingBuffer.AudioRing.ReadAudioData` | src/u_ringbuffer.cpp:116-181 | Gives exactly the next samples and closes the gate when the queue runs empty, or gives silence and takes nothing. |
| `RingBuffer.AudioRing.ReadRawData` | src/u_ringbuffer.cpp:183-238 | Gives exactly the next samples without regard to the gate, or silence; the read position may rest at the end of the array. |
| `RingBuffer.AudioRing.DiscardSamples` | src/u_ringbuffer.cpp:295-337 | Drops the next samples, or starts over when more are asked for than there are. |
| `RingBuffer.AudioRing.GetWriteAheadLength` | src/u_ringbuffer.cpp:339-342 | The number of queued samples. |
| `RingBuffer.WholeWrite` | src/u_ringbuffer.cpp:57-75 | A copy in one piece behind a window prolongs the window by the samples. |
| `RingBuffer.SplitWrite` | src/u_ringbuffer.cpp:89-104 | Two copies, to the end of the array and from its start, prolong the window by the samples. |
| `RingBuffer.SilentBelowPrefill` | src/u_ringbuffer.cpp:126-145 | Over any run that never queues as much as the prefill a shut gate stays shut. |
| `RingBuffer.GateHistory` | src/u_ringbuffer.cpp:126-161 | Over any run the gate is open exactly if a write that fits has brought the queue to the prefill and since then no audio read has taken everything and no discard as much or more. |
| `RingBuffer.GivesWhatItTakes` | src/u_ringbuffer.cpp:116-238 | A read gives as many samples as were asked for: the ones it takes, or silence if it takes nothing. |
| `RingBuffer.AudioRing.MoveWriteHead` | src/u_ringbuffer.cpp:61-75 | Moves the write position, which never rests at the end of the array, and opens the gate at the prefill. |
| `RingBuffer.AudioRing.MoveReadHead` | src/u_ringbuffer.cpp:146-181 | Moves the read position over queued samples and closes the gate when the window is empty. |
| `AudioCallers.ProcessOutput` | src/u_audioprovider.cpp:1055-1087 | Plays silence and takes nothing when the queue is empty or the gate shut, else exactly the next samples, as many as are requested and queued, followed by silence. |
| `AudioCallers.InputDrain.OnInputBufferWrite` | src/uwavclient.cpp:275-322 | Does nothing without an input stream; otherwise terminates under exactly the conditions in which its loops make progress; sends the consecutive complete chunks and keeps less than a chunk, or discards chunks and keeps at most one without starting over. |
| `AudioCallers.InputDrain.SendChunks` | src/uwavclient.cpp:305-311 | The sending loop emits exactly the complete chunks in order. |
| `AudioCallers.InputDrain.DropChunks` | src/uwavclient.cpp:312-321 | The discarding loop terminates and never asks for more than is queued. |
| `AudioCallers.InputDrain.EmitSamples` | src/uwavclient.cpp:1231-1254 | With an open socket one message with the next samples is sent; otherwise nothing is read. |
| `AudioCallers.ChunkCount` | src/uwavclient.cpp:305-311 | There are floor(available / chunk) chunks and available mod chunk samples stay. |
| `AudioCallers.ChunksCoverQueue` | src/uwavclient.cpp:305-311 | The chunks have the full size and together with the rest are the queue. |
| `AudioCallers.KeptCount` | src/uwavclient.cpp:312-321 | Whole chunks are discarded from the front, at most one chunk stays, and some stays if there was some. |
| `AudioCallers.DiscardProgress` | src/uwavclient.cpp:317-320 | A turn of the discarding loop shortens the queue if and only if the chunk size is above zero; with zero it changes nothing. |
| `RingSteps.SafeRun` | src/u_ringbuffer.cpp:47-114 | For every interleaving of one producer, with audio and raw writes, and one consumer, one access to a shared field per step in the order of the code: the slots a write copies to and those being read never overlap, and what was taken, queued and is underway are the admitted samples in order, as long as the window is cleared only where that is harmless and no write strays in front of that. |
| `RingSteps.SafeExactly` | src/u_ringbuffer.cpp:47-336 | A run from a safe state goes through safe states only if and only if it clears the window only where that is harmless and lets no write stray. |
| `RingSteps.StartOverKeeps` | src/u_ringbuffer.cpp:300-306 | Clearing the window, behind both positions, makes the invariant hold again if and only if what the producer has read of its position (branch, samples to the end, destination of the copy) agrees with the position as it is then, and its next samples go to the start of the array. |
| `RingSteps.HarmlessAtOnce` | src/u_ringbuffer.cpp:303-305 | If the producer makes no step between the clearing of the position and that of the window, what it had read before decides, if and only if: a straight branch without destination is harmless, a destination is only at the start of the array, the other branch only for a write that fills the array. |
| `RingSteps.HarmfulInside` | src/u_ringbuffer.cpp:300-306 | For every inner destination, every count of samples and every part of them already copied there is a state under which starting over ends in a window that does not hold the queue. |
| `RingSteps.SplitStrays` | src/u_ringbuffer.cpp:92-94 | Starting over before a write in the wrapped branch has measured the end of the array makes it copy more samples than it was given, whatever it writes, unless it fills the array. |
| `RingSteps.ClearSound` | src/u_ringbuffer.cpp:304 | Clearing the write position leaves every write in progress inside the array, and its samples where it puts them. |
| `RingSteps.GuardedSafe` | src/uwavclient.cpp:312-321 | Callers that look before they discard never start the buffer over and so have safe runs. |
| `RingSteps.StepKeeps` | src/u_ringbuffer.cpp:47-336 | Every step of either side, those of starting over included, keeps the invariant between positions, window, array content and history, wherever the window is cleared only harmlessly. |
| `RingSteps.InvNoOverlap` | src/u_ringbuffer.cpp:57-113 | In every such state no slot that the copy of a write fills, from the destination it has fixed on, is a slot of the read in progress. |
| `RingAlone.ReadAlone` | src/u_ringbuffer.cpp:116-238 | From every state of the step system, a read or discard without a step of the producer in between: an audio read is served exactly if enough is queued and the gate is open, the others exactly if enough is queued; it takes the first samples; the gate is shut exactly by an audio read or discard that leaves nothing; what is not served changes nothing, but a discard of too much drops everything. |
| `RingAlone.WriteAlone` | src/u_ringbuffer.cpp:47-293 | The same for an audio or raw write: all samples or none, and the gate is opened exactly at the prefill. |
| `RingAlone.AloneAsQueue` | src/u_ringbuffer.cpp:47-337 | Each operation of the step system, run alone, does to the queue, its gate and the samples taken what the queue does. |
| `RingSteps.RunAdmits` | src/u_ringbuffer.cpp:57-113 | In every run at all, what was published and what is underway are the samples of the writes that found room, in order. |
| `RingSteps.UnguardedDiscardCorrupts` | src/u_ringbuffer.cpp:300-306 | A run in which a discard starts over inside a copy: the copy goes on where it began, and the consumer gets an old sample for the second new one. |
| `RingSteps.WriteBetweenCorrupts` | src/u_ringbuffer.cpp:304-305 | A run in which a whole write falls between the clearing of the position and of the window: the consumer gets the sample of that write again in place of the one written after it. |
| `RingSteps.LateMeasureStrays` | src/u_ringbuffer.cpp:92-94 | A run in which a discard starts over behind the choice of the wrapped branch: the copy runs past the samples it was given. |
| `MemoryPool.RunSound` | src/lib/rapidjson/include/rapidjson/allocators.h:168-201 | Over every run of requests whose rounded sizes can be rounded the live blocks are disjoint, inside the used part of their chunks and have the room their owners believe in, and the used size never exceeds the capacity. |
| `MemoryPool.ResizedSound` | src/lib/rapidjson/include/rapidjson/allocators.h:179-201 | Resizing keeps the blocks disjoint whatever the size; every block has its room afterwards if and only if what was rounded, the whole size of a block that moves or the growth of one that stays, is at most 2^32 - 4. |
| `MemoryPool.GottenWhere` | src/lib/rapidjson/include/rapidjson/allocators.h:168-176 | A request is served at the mark of the first chunk exactly if its rounded size fits behind it; otherwise in a new chunk, as large as the larger of the usual capacity and the rounded size. |
| `MemoryPool.OneChunkServes` | src/lib/rapidjson/include/rapidjson/allocators.h:168-223 | Requests that together fit the usual capacity share one chunk, and lie in it one behind the other. |
| `MemoryPool.SumsGrow` | src/lib/rapidjson/include/rapidjson/allocators.h:150-176 | A request adds its rounded size to the total size, and to the total capacity nothing, or the new chunk if it needs one. |
| `MemoryPool.ResizedWhere` | src/lib/rapidjson/include/rapidjson/allocators.h:179-201 | A block that shrinks stays; one that ends at the mark grows in place exactly if its growth fits; any other goes where a new one would. |
| `MemoryPool.MemoryPoolAllocator.Malloc` | src/lib/rapidjson/include/rapidjson/allocators.h:168-176 | Hands out the rounded size at the mark of a chunk that has room, adding one if need be; the pool stays sound if and only if the size can be rounded. |
| `MemoryPool.MemoryPoolAllocator.Realloc` | src/lib/rapidjson/include/rapidjson/allocators.h:179-201 | A null pointer gets a new block; shrinking changes nothing, the last block of the newest chunk grows in place, to any size by increments up to 2^32 - 4, any other block moves; its bytes are kept and no other block changes. |
| `MemoryPool.MemoryPoolAllocator.AddChunk` | src/lib/rapidjson/include/rapidjson/allocators.h:215-223 | A new chunk goes in front of the list with an empty mark. |
| `MemoryPool.MemoryPoolAllocator.Size` | src/lib/rapidjson/include/rapidjson/allocators.h:160-165 | The sum over the list; within the sum of capacities. |
| `MemoryPool.MemoryPoolAllocator.Capacity` | src/lib/rapidjson/include/rapidjson/allocators.h:150-155 | The sum over the list. |
| `MemoryPool.MemoryPoolAllocator.Clear` | src/lib/rapidjson/include/rapidjson/allocators.h:139-145 | Frees the chunks in front of the user buffer and nothing else; the blocks that stay are still sound. |
| `MemoryPool.SurvivorsAre` | src/lib/rapidjson/include/rapidjson/allocators.h:139-145 | The blocks that are left are those in the chunks that are left, each as often as before. |
| `MemoryPool.MemoryPoolAllocator.FromBuffer` | src/lib/rapidjson/include/rapidjson/allocators.h:119-129 | The user buffer, less its header, becomes the first chunk. |
| `MemoryPool.LastIsLast` | src/lib/rapidjson/include/rapidjson/allocators.h:187-195 | The pointer test for growing in place succeeds only for the block that ends at the mark of the newest chunk, and only if its size was not rounded. |
| `MemoryPool.GrowKeeps` | src/lib/rapidjson/include/rapidjson/allocators.h:187-195 | Growing the last block in place overlaps nothing. |
| `MemoryPool.AlignIsEnough` | src/lib/rapidjson/include/rapidjson/allocators.h:168-169 | Rounding with the 32-bit mask is enough if and only if the size is at most 2^32 - 4. |
| `MemoryPool.HugeBlockOverlaps` | src/lib/rapidjson/include/rapidjson/allocators.h:168-176 | A block of 2^32 bytes gets no room: the next block lies at the same address. |
| `MemoryPool.AlignMask` | src/lib/rapidjson/include/rapidjson/allocators.h:168-169 | The mask keeps the low 32 bits but the lowest two. |
| `MemoryPool.MemoryPoolAllocator.constructor` | src/lib/rapidjson/include/rapidjson/allocators.h:105-108 | An empty pool. |
| `Utf8.AcceptsExactly` | src/lib/websocketpp/websocketpp/utf8_validator.hpp:45-65 | The automaton accepts a byte string if and only if it is a concatenation of the UTF-8 forms of scalar values. |
| `Utf8.EncodedRun` | src/lib/websocketpp/websocketpp/utf8_validator.hpp:69-78 | The form of a scalar value leads from the accepting state back to it, with that value as the code point. |
| `Utf8.Validator.Decode` | src/lib/websocketpp/websocketpp/utf8_validator.hpp:105-119 | Consumes bytes up to the first that is refused; the verdict is that of the automaton. |
| `Utf8.Validator.DecodePieces` | src/lib/websocketpp/websocketpp/utf8_validator.hpp:105-126 | A message in any pieces is accepted if and only if it is as a whole; after a refusal no continuation would be accepted. |
| `Utf8.Validator.Consume` | src/lib/websocketpp/websocketpp/utf8_validator.hpp:91-96 | One step of the automaton. |
| `Utf8.Validate` | src/lib/websocketpp/websocketpp/utf8_validator.hpp:143-149 | True exactly for the accepted strings. |
| `Utf8.RunConcat` | src/lib/websocketpp/websocketpp/utf8_validator.hpp:105-126 | Where a text is cut makes no difference to state and code point. |
| `Utf8.BitsJoin` | src/lib/websocketpp/websocketpp/utf8_validator.hpp:70-74 | The shifts and ors by which code points are put together, and tail bytes made, never carry. |
| `Utf8.LeadsJoin` | src/lib/rapidjson/include/rapidjson/encodings.h:107-127 | Nor do the ors that make the lead bytes of two, three and four byte forms. |
| `Utf8.Validator.Reset` | src/lib/websocketpp/websocketpp/utf8_validator.hpp:129-132 | Back to the start for another message. |
| `Utf8Decoder.DecodesExactly` | src/lib/rapidjson/include/rapidjson/encodings.h:129-155 | A call succeeds if and only if the form of a scalar value stands at the cursor, and then yields it and consumes exactly it. |
| `Utf8Decoder.DecodeFromInverts` | src/lib/rapidjson/include/rapidjson/encodings.h:107-155 | Along the whole string of any scalar values decoding undoes encoding. |
| `Utf8Decoder.DecoderAgreesWithAutomaton` | src/lib/rapidjson/include/rapidjson/encodings.h:129-155 | The decoder of the JSON library and the validator of the WebSocket library accept the same strings. |
| `Utf8Decoder.Streams.Decode` | src/lib/rapidjson/include/rapidjson/encodings.h:129-155 | The switch over the byte classes with its masks computes verdict, code point and position. |
| `Utf8Decoder.Streams.Validate` | src/lib/rapidjson/include/rapidjson/encodings.h:158-181 | The same verdict, with exactly the consumed bytes copied out. |
| `Utf8Decoder.TransRanges` | src/lib/rapidjson/include/rapidjson/encodings.h:183-199 | The class bits and masks let through exactly the byte ranges of the syntax. |
| `WsMask.MaskStream` | src/lib/websocketpp/websocketpp/frame.hpp:768-789 | A message in any pieces, each masked in place by words or by octets with the key handed back before, is masked as byte_mask masks the whole. |
| `WsMask.WordMaskCirc` | src/lib/websocketpp/websocketpp/frame.hpp:768-789 | Masks a piece in place or out of place and hands back a key in phase with the next piece, on either byte order and word size. |
| `WsMask.ByteMaskCirc` | src/lib/websocketpp/websocketpp/frame.hpp:830-841 | The same octet by octet, with the low 32 bits of the key. |
| `WsMask.WordMaskExact` | src/lib/websocketpp/websocketpp/frame.hpp:702-717 | For every length equal to masking octet by octet; nothing behind the length is written. |
| `WsMask.ByteMask` | src/lib/websocketpp/websocketpp/frame.hpp:644-655 | Octet i is combined with octet (i + offset) mod 4 of the key. |
| `WsMask.PreparedCarries` | src/lib/websocketpp/websocketpp/frame.hpp:595-605 | A prepared key lies in memory as the key repeated, on either byte order and word size. |
| `WsMask.ShiftedCarries` | src/lib/websocketpp/websocketpp/frame.hpp:612-623 | Shifting a prepared key by the masked octets keeps it in phase. |
| `WsMask.ShiftedOctets` | src/lib/websocketpp/websocketpp/frame.hpp:612-623 | The shifts of either byte order rotate the octets in memory. |
| `WsMask.MaskingIsInvolution` | src/lib/websocketpp/websocketpp/frame.hpp:644-655 | Masking twice with the same key gives the message back. |
| `WsMask.MaskedConcat` | src/lib/websocketpp/websocketpp/frame.hpp:644-655 | Where a message is cut makes no difference. |
| `SioClient.NoAttemptAfterClose` | src/sio/internal/sio_client_impl.cpp:161-167 | After close, in whatever reachable state, no reconnect attempt starts before the next connect. |
| `SioClient.AttemptsBounded` | src/sio/internal/sio_client_impl.cpp:347-362 | With a fixed limit the timer-driven attempts never exceed it from one reset of the counter, by an open or a connect, to the next. |
| `SioClient.AttemptsAreCounted` | src/sio/internal/sio_client_impl.cpp:347-362 | Over runs without a reset, connects and opens that reset nothing included, the counter is the number of attempts and stays within the limit. |
| `SioClient.DelaysNeverFall` | src/sio/internal/sio_client_impl.cpp:364-369 | The announced delays never fall from one reset of the counter to the next and stay within the maximum. |
| `SioClient.DelaysWithinSettings` | src/sio/internal/sio_client_impl.h:121-125 | After any setter calls every announced delay of any further run lies between the two settings. |
| `SioClient.DelayGrows` | src/sio/internal/sio_client_impl.cpp:364-369 | The delay is monotone in the attempts made, at most the maximum, and starts at the smaller setting. |
| `SioReconnect.DelayExactly` | src/sio/internal/sio_client_impl.cpp:364-369 | The delay is the first delay times 1.5 to the power of the attempts made, at most 32, cut to whole milliseconds and to the maximum. |
| `SioReconnect.LostSetsTimer` | src/sio/internal/sio_client_impl.cpp:397-423 | After a failed dial or a drop, a client that is not closing is closed; the timer is set and one delay announced if and only if attempts are left and retries were not given up. |
| `SioReconnect.EndsQuietly` | src/sio/internal/sio_client_impl.cpp:442-467 | A normal end, and any end while closing, sets no timer; a dial that ends while closing is closed again. |
| `SioReconnect.TriesExactly` | src/sio/internal/sio_client_impl.cpp:347-423 | From a connect on, over every run in which all dials fail: never more attempts than the limit, something is still to come while there were fewer, and when nothing is, exactly as many were made. |
| `SioReconnect.TriesToTheEnd` | src/sio/internal/sio_client_impl.cpp:347-423 | The run that makes all attempts exists for every limit. |
| `SioReconnect.ComesBack` | src/sio/internal/sio_client_impl.cpp:347-491 | A client that loses an open connection is open again after one attempt and one delay. |
| `SioReconnect.ConnectDials` | src/sio/internal/sio_client_impl.cpp:84-129 | Connecting dials anew with no attempt made, unless the client is open or opening. |
| `SioReconnect.TimerAttempts` | src/sio/internal/sio_client_impl.cpp:347-362 | An expired timer leads to a dial and one more attempt if and only if the client is closed. |
| `SioReconnect.OpensResets` | src/sio/internal/sio_client_impl.cpp:425-440 | An opened connection sets the counter back and changes nothing else. |
| `SioReconnect.SettersSet` | src/sio/internal/sio_client_impl.h:121-125 | Each setting is what was set; the other delay follows only if it must. |
| `SioReconnect.CloseStopsTimer` | src/sio/internal/sio_client_impl.cpp:305-323 | A close that runs stops the timer and leaves a client that can be connected again; one for an unanswered ping leaves all else to the connection. |
| `SioReconnect.NeverStarts` | src/sio/internal/sio_client_impl.cpp:267-302 | Behind a dial that cannot start, over every run in which the user does not close the client: it stays opening and makes no attempt, whatever is called, connecting included. |
| `SioReconnect.ClosedThenStarts` | src/sio/internal/sio_client_impl.cpp:84-129 | Closed first, the client dials at the next connect. |
| `SioReconnect.DelaysByDefault` | src/sio/internal/sio_client_impl.cpp:39-42 | Over every run in which no delay is set, delays lie between five and twenty-five seconds and start at five. |
| `SioClient.StepKeeps` | src/sio/internal/sio_client_impl.cpp:84-491 | At most one of dial, connection, timer and due handler exists, in the states that allow it. |
| `SioClient.ClientImpl.DoConnect` | src/sio/internal/sio_client_impl.cpp:84-129 | Cancels the timer, does nothing while open or opening, else resets the counter and dials. |
| `SioClient.ClientImpl.DoClose` | src/sio/internal/sio_client_impl.cpp:161-167 | Marks the client closing, gives up retries and dispatches a close. |
| `SioClient.ClientImpl.HandleTimeout` | src/sio/internal/sio_client_impl.cpp:347-362 | An attempt, counted, only if the client is still closed. |
| `SioClient.ClientImpl.ComputeDelay` | src/sio/internal/sio_client_impl.cpp:364-369 | The loop computes the delay from at most 32 attempts. |
| `SioClient.ClientImpl.HandleFail` | src/sio/internal/sio_client_impl.cpp:397-423 | Closes again while closing, else announces the delay and sets the timer exactly if retries are left. |
| `SioClient.ClientImpl.HandleOpen` | src/sio/internal/sio_client_impl.cpp:425-440 | Closes again while closing, else opens and resets the counter. |
| `SioClient.ClientImpl.HandleClose` | src/sio/internal/sio_client_impl.cpp:442-491 | Sets the timer exactly if the close was neither normal nor asked for and retries are left. |
| `SioSocket.SocketRuns` | src/sio/sio_socket.cpp:268-285 | Over every run the packets emitted since the last clear are those sent followed by those queued, nothing waits while connected, and no acknowledgement callback is called twice. |
| `SioSocket.AcceptedInOrder` | src/sio/sio_socket.cpp:316-341 | When the socket is accepted the queued packets go out first, followed by those the open callback emitted, in that order. |
| `SioSocket.StepInOrder` | src/sio/sio_socket.cpp:268-381 | Every call keeps the order. |
| `SioSocket.StepSingle` | src/sio/sio_socket.cpp:475-488 | Every call keeps all registrations apart, called ones included, even when identifiers wrap. |
| `SioSocket.AckFindsItsCallback` | src/sio/sio_socket.cpp:268-285 | An answer calls the callback registered with the packet it answers, and registering disturbs no other. |
| `SioSocket.SocketImpl.DoSendPacket` | src/sio/sio_socket.cpp:508-532 | Connected: drains the queue in order and sends; otherwise queues. |
| `SioSocket.SocketImpl.DoEmit` | src/sio/sio_socket.cpp:268-285 | Takes the next identifier and registers the callback before the packet is sent. |
| `SioSocket.SocketImpl.HandleConnected` | src/sio/sio_socket.cpp:316-341 | Connects, runs the emissions of the callback, drains. |
| `SioSocket.SocketImpl.HandleClose` | src/sio/sio_socket.cpp:343-363 | Disconnects for good and clears the queue. |
| `SioSocket.SocketImpl.HandleDisconnect` | src/sio/sio_socket.cpp:370-381 | Clears the queue only if the socket was connected. |
| `SioSocket.LostDisconnects` | src/sio/sio_socket.cpp:370-381 | A lost connection disconnects the socket; a connected one loses its queue, a waiting one keeps it, and callbacks stay. |
| `SioSocket.EmittedInBetween` | src/sio/sio_socket.cpp:508-532 | What is emitted between the loss and the next connect is not sent before, and then first and in order. |
| `SioSocket.EndedForGood` | src/sio/sio_socket.cpp:343-363 | A socket that has ended stays as it is whatever comes: nothing is queued, sent or called. |
| `SioSocket.ClosingSays` | src/sio/sio_socket.cpp:298-314 | Closing sends exactly one disconnect packet while connected, and nothing otherwise. |
| `SioSocket.EmitPuts` | src/sio/sio_socket.cpp:268-285 | An emission goes out at once while connected and to the end of the queue otherwise, with its identifier and callback. |
| `SioSocket.PacketsDo` | src/sio/sio_socket.cpp:383-473 | A packet for another namespace does nothing; a connect connects, a disconnect ends the socket; an event with an identifier is acknowledged once with it; an answer calls the callback that waits for it. |
| `SioSocket.SocketImpl.HandlePacket` | src/sio/sio_socket.cpp:383-448 | Dispatches packets for the namespace by their kind, as long as the socket is alive. |
| `SioSocket.SocketImpl.HandleAck` | src/sio/sio_socket.cpp:475-488 | Takes the callback out of the map and calls it once. |
| `SioSocket.SocketImpl.DoClose` | src/sio/sio_socket.cpp:298-314 | Sends a disconnect only while connected. |
| `SioSocket.EmitConserves` | src/sio/sio_socket.cpp:268-285 | An emission adds exactly its packet behind those emitted before, whether it is sent or queued. |
| `DeviceLists.RunMirrors` | src/uwavclient.cpp:1461-1533 | Once the boxes mirror the lists, they do so in every order of additions, removals and handling: replaying the pending signals gives the devices in order followed by the placeholder. |
| `DeviceLists.FillingMirrors` | src/uwavclient.cpp:1361-1380 | The queued filling starts the mirroring if and only if, in both lists, the changes that are pending when it is handled have brought as many devices as they took and left the name at the place of every device that was kept. |
| `DeviceLists.FromTheStart` | src/u_audioprovider.cpp:1187-1384 | From empty lists and boxes, over every run up to the handling of the filling: whatever happens afterwards, the boxes show the lists whenever no signal is on the way, if and only if the changes pending at the filling have left every kept device in its place and brought as many as they took. |
| `DeviceLists.EverAfter` | src/uwavclient.cpp:1461-1533 | Once filled, the boxes show the lists whenever no signal is on the way, in every continuation, if and only if replaying what is pending now gives the lists. |
| `DeviceLists.ReplayMirrors` | src/uwavclient.cpp:1361-1380 | The same for one box: filled after any changes and then changed by them once more, it is as it was filled exactly on that condition. |
| `DeviceLists.OneSortPending` | src/uwavclient.cpp:1361-1380 | With nothing but additions pending, or nothing but removals, it starts exactly if there are none. |
| `DeviceLists.LateAdditionRepeats` | src/u_audioprovider.cpp:1187-1213 | A device of either kind that is added between the end of reading and the filling is shown twice. |
| `DeviceLists.LateRemovalDeletes` | src/u_audioprovider.cpp:1232-1268 | A device of either kind that is removed in that time takes the next entry with it, or the placeholder. |
| `DeviceLists.AddedAndGoneMirrors` | src/u_audioprovider.cpp:1187-1268 | A device that comes and goes in that time does no harm. |
| `DeviceLists.StepCollects` | src/u_audioprovider.cpp:1187-1268 | While the registry is being read no addition is signalled, and removals that are handled leave the empty boxes empty. |
| `DeviceLists.DoneAwaits` | src/u_audioprovider.cpp:1366-1384 | When reading ends the filling is queued behind removals only, and the lists are as they are then. |
| `DeviceLists.StepAwaits` | src/u_audioprovider.cpp:1187-1268 | Until the filling is handled, every addition, removal and handling keeps account of what changed since. |
| `DeviceLists.DeviceSystem.OnRegistryAdd` | src/u_audioprovider.cpp:1187-1213 | Appends to the list of the kind and, after the first run, signals the index and name. |
| `DeviceLists.DeviceSystem.OnRegistryRemove` | src/u_audioprovider.cpp:1216-1269 | Removes the first device with the id, inputs before outputs, and signals its index. |
| `DeviceLists.RemovesFirst` | src/u_audioprovider.cpp:1216-1269 | The first input with the identifier goes, and only if there is none the first output; its place is signalled and nothing else changes. |
| `DeviceLists.AddsLast` | src/u_audioprovider.cpp:1187-1213 | A source becomes the last input and a sink the last output, signalled with place and name once the registry has been read. |
| `DeviceLists.HandlesOldest` | src/uwavclient.cpp:1361-1533 | The oldest signal is handled, each in its own box. |
| `DeviceLists.DeviceSystem.HandleSignal` | src/uwavclient.cpp:1461-1533 | The window takes the oldest signal, be it a change or the filling. |
| `DeviceLists.DeviceSystem.OnDeviceListsReady` | src/uwavclient.cpp:1361-1371 | Adds the devices known by then to both boxes and a placeholder each. |
| `DeviceLists.DeviceSystem.OnCoreDone` | src/u_audioprovider.cpp:1366-1384 | Queues the filling and lets additions be signalled from then on. |
| `LocalConfig.SaveThenLoad` | src/localconfig.cpp:165-273 | Whatever the old file held, saving and loading restores each setting, for trimmed values without comment mark or line end and servers without semicolon, unless it is the word none, in which case what was set before stays. |
| `LocalConfig.SaveThenLoadServers` | src/localconfig.cpp:376-413 | A history that was written is read back as the same list, and no empty text is looked into. |
| `LocalConfig.HistoryIsList` | src/localconfig.cpp:291-313 | Up to five distinct entries, none empty: the current server first, then trimmed entries of the box, in its order and each where it first occurs; all of them if there is room. |
| `LocalConfig.MisreadsEmptyOnly` | src/localconfig.cpp:376-389 | The last character of an empty text is read if and only if, with a window, some line holds an empty history. |
| `LocalConfig.SplitJoined` | src/localconfig.cpp:391-408 | Cutting a joined history at its semicolons gives the list. |
| `LocalConfig.ParseTwice` | src/localconfig.cpp:462-502 | A line that was passed through, without comment and outer white space, reads as before. |
| `LocalConfig.WrittenParses` | src/localconfig.cpp:462-502 | A written line reads as the key and value written, for trimmed values without comment mark or line end. |
| `ConfigFile.LineReads` | src/localconfig.cpp:462-502 | A line with white space and a comment anywhere reads as its key and value; what is passed through is the line without comment and outer white space. |
| `ConfigFile.OtherLine` | src/localconfig.cpp:462-502 | A line without an equals sign in front of its comment says nothing and is passed through. |
| `ConfigFile.Trims` | src/localconfig.cpp:293-304 | Trimming takes the white space at both ends and nothing else. |
| `ConfigFile.OldLines` | src/localconfig.cpp:165-250 | Each old line keeps its place: it stays if it says nothing or what is set, and is replaced otherwise; the history unless it is skipped. |
| `ConfigFile.NewLines` | src/localconfig.cpp:252-273 | Behind them come, spelled out and in order, the keys that had no line. |
| `ConfigFile.HistoryReads` | src/localconfig.cpp:291-313 | The history is each server with a semicolon behind it, or none. |
| `ConfigFile.LastLineCounts` | src/localconfig.cpp:327-441 | The last line that gives a setting a value counts. |
| `ConfigFile.NoLineCounts` | src/localconfig.cpp:327-441 | Without such a line the setting stays. |
| `ConfigFile.ServersRead` | src/localconfig.cpp:376-413 | A list of servers is read with or without its last semicolon, and cut off behind the fifth. |
| `ConfigFile.OtherServers` | src/localconfig.cpp:376-389 | The word none keeps the list, and so does any line without a window; an empty line is misread and leaves none. |
| `LocalConfig.SavedSays` | src/localconfig.cpp:165-273 | All lines of a saved file for a key say the setting, and there is one. |
| `LocalConfig.Settings.Save` | src/localconfig.cpp:165-273 | The loop with its flags writes each old line or its replacement and then the missing ones. |
| `LocalConfig.Settings.Load` | src/localconfig.cpp:327-441 | The loop sets each key that is not none, the last line winning; a history clears the box and is cut, an empty one is misread. |
| `LocalConfig.Settings.CollectServers` | src/localconfig.cpp:293-304 | The loop over the box collects the history list. |
| `LocalConfig.Settings.ServerHistoryString` | src/localconfig.cpp:291-313 | The list joined with semicolons, or none. |
| `LocalConfig.Settings.ReadServers` | src/localconfig.cpp:391-408 | The loop of five cuts computes the list. |

## Left out

- JsonReader.GenericReader.ParseNumber: a double is its text, and the bound that refuses digit runs is compared exactly.
- JsonValues.IntegerTokenExact: that bound is exact here, where the code compares a rounded double.
- Doubles: `strtod`, `dtoa` and arithmetic on doubles; a double is carried as its text.
- Integer printing uses plain decimal digits; the digit-pair tables of `internal/itoa.h` are not part of this model.
- JsonReader.GenericReader.ParseStringToStream: a second report ends the model's run, as the failing assertion does. Without assertions the code goes on with the later error in place of the first. Behind the text, which bytes are read is not part of this model.
- Handlers that refuse events, in-situ parsing, encoding validation while parsing, other encodings than UTF-8, the flag that stops behind the root, SIMD skipping, pretty printing and file streams.
- 32-bit overflow of member and element counts, and of the exponent of a double.
- JsonReader.GenericReader.Digits32: the negation of 2^31 as a signed 32-bit number is taken as mathematics takes it.
- Removing members, adding members and comparing documents; they add only easy members.
- SioPacket.StreamRoundTrip: fewer than 2^31 attachments per packet, since attachment numbers are cast to 32 bits.
- SioPacket.PacketImpl.DoParse: a first byte that is no digit from 0 to 6 gives its signed difference as the frame; what the enumeration of the code makes of a number that it does not name is not part of this model.
- The loop counters that limit how often overflow warnings are logged.
- The prefill is a two-hundredth of the sample rate; the code multiplies by 0.005 in floating point and truncates.
- RingBuffer.AudioRing.MoveReadHead: the head movement that audio reads and discards spell out twice is one method here, and so are their copies; the loops that write silence are `ZeroFill`.
- RingSteps.SafeRun: memory order weaker than sequential consistency is not modelled; the code uses the default order of its atomics.
- The clock value and event name that are sent with audio samples.
- AudioCallers.InputDrain.OnInputBufferWrite: excludes the calls whose loops never end: sending a queued chunk through a closed socket, and discarding queued samples with a chunk size of zero.
- Gain and level computation in the playback callback.
- MemoryPool.MemoryPoolAllocator.Realloc: excludes sizes that cannot be rounded, for which the copy may leave the block (`ResizedSound` says which those are), and memory that runs out.
- The chunks of the pool are a sequence with the newest first, in place of a list linked through memory; their headers lie outside the blocks, as is proved, and are not stored in the byte array.
- The other half of the documentation of `word_mask_circ`, that octets behind the length are overwritten with themselves: the code does not write them.
- Framing, sizes and opcodes of WebSocket frames; `uri.hpp`; the connection and endpoint classes.
- SioClient.DelayGrows: the delay is exact, where the code multiplies doubles.
- SioClient.NoAttemptAfterClose: handlers and user calls are single steps; threads that run inside each other's steps are not modelled, nor ping timers, TLS, proxies and the query string.
- Emission that interleaves with draining inside `on_connected` or `send_packet` on another thread; packets are handed to the client, and whether the network takes them is not part of this model.
- Event listeners of the socket, the answer that a listener gives, and the timers that close a socket.
- Selection in combo boxes, labels, sliders, message boxes; PipeWire and asio.
- File renaming and permissions on saving, generating an identifier on first start, and the selection of devices on loading.
- LocalConfig.Settings.Load: what is made of the character in front of an empty history is not part of this model; from there on the list is left empty.
- LocalConfig.Settings.CollectServers: trimming removes ASCII white space only.
