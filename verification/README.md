# CloudI client bindings: a verified model

CloudI runs services in many languages. Each language binding does two things: it writes and
reads terms in the Erlang External Term Format (erts, `erl_ext_dist`), and it speaks a protocol
of framed messages with the CloudI core over a socket. This project models both and proves what
they are for.

## Terms

* `ErlangTerms`, `ErlangEncoder`, `ErlangDecoder`: the Python codec. The decoder is a function
  of a cursor and the data, with the unchecked slices of the source (`Deferred`), with every
  slice checked (`Checked`), and with the size field of a NEW_FUN_EXT checked as well (`Exact`).
  The loops of the source (sequences, dict pairs, digits) are methods proved equal to it.
* `NormalForm`: what a term becomes when it is written and read back (an empty string becomes
  an empty list, None becomes the atom `undefined`, a long string becomes a list of integers, a
  list whose last element reads as `[]` becomes proper, ...) and the terms this is promised for.
* `FunctionPayloads`: which payloads of functions the external format allows, and that these are
  the ones that are read back. (Where a FUN_EXT holds free variables, each is any one external
  term.)
* `Writability`: which terms can be written, and in how many bytes. `DictKeys`: which keys a dict
  takes for the same, and what it holds after a store. `Utf8`: that the automaton for names and
  texts accepts the UTF-8 forms of code points and nothing else.
* `RoundTrip`, `DecoderLaws`, `Truncation`, `BoundsChecking`, `Locality`, `DecodedSize`,
  `Reencoding`, `EncodingLaws`: the laws.
* `GoDecoder` is the grammar that the Go decoder accepts, `GoReader` the decoder as it runs, with
  a mutable reader and an index beside it. `Interoperation` relates Go and Python.
* `Integers`: digits, Horner's loop, and Go's reversal in place.

Three things that the proofs brought to light:

* A NEW_FUN_EXT whose size field is below 4 makes the Python cursor stop inside that field. A
  reading depends on the bytes it consumed alone if and only if it meets no such function.
* An improper list whose only element encodes as NIL_EXT is the one shape that a second writing
  makes shorter.
* Go does not count the size field of NEW_FUN_EXT. Where both decoders accept one, Go ends 4 bytes
  behind Python, so they agree on none.

## Protocol

* `ReallocPtr` (the doubling buffer), `Framing` (length-prefixed messages over reads and writes
  that move any positive number of bytes), `Subscriptions` (the round-robin table of callbacks),
  `KeyValueText` (the NUL-separated key/value text).
* `Frames` and `FrameLaws`: the frames as the core lays them out, the C++ walk by an index over
  a reused buffer, the Python parser by slices, and their agreement. The native byte order is
  taken to be little-endian. `PythonEvents` is Python's event loop as it runs.
* `Polling`: the C++ instance, `poll_request`, `handle_events` and `callback`. The socket
  delivers any bytes at all, the callback is any program: it sends requests (and so polls from
  inside of the poll that called it), answers, catches the exception of an answer or lets it go,
  throws, or falls through. A failed `assert` of the source, an exception that `callback` does
  not catch and a read behind a buffer end the run (`Aborted`).
* `JavaScriptScheduler`: one outstanding request, queued operations and retry timers, under all
  interleavings of events.

And here:

* Whether C++ accepts a frame depends on what an older frame left in the buffer if and only if
  the frame ends inside of a code and with the first bytes of TERM, because the end of a TERM is
  the one that is not compared with the size of the frame.
* The C++ key/value parser loses an offset if and only if a string other than the last is empty.
* A poll that begins before termination returns success only for a frame that it read itself: a
  TERM that a nested poll handled does not make the poll around it return success.

## Model

| member | source | states |
|---|---|---|
| EncodingLaws.ReadsBackAnywhere | src/api/python/erlang.py:484-678 | a well-formed term written anywhere between other bytes reads back as its normal form, and the cursor stops exactly behind it, in every way of checking bounds |
| RoundTrip.TermRoundTrip | src/api/python/erlang.py:748-866 | the same for a term on its own in the strictest reading, for each of the sixteen kinds of value by recursion over the term |
| Writability.TermWritten | src/api/python/erlang.py:748-866 | for every term: it can be written if and only if its lengths, counts and numbers fit their fields, by recursion over the term; and then it takes so many bytes, the shortest form that fits being the one used |
| Writability.MessageWrittenIff | src/api/python/erlang.py:461-480 | `term_to_binary` succeeds if and only if the term can be written and, when it is compressed, the level is one of 0 to 9 and the plain size fits; True is level 6; the bytes of the message in both forms |
| Writability.IntegerWritten | src/api/python/erlang.py:834-866 | one byte for 0 to 255, four for the other 32-bit integers, -1 among them, and otherwise as many as the magnitude has digits, with a digit count of one or four bytes |
| Utf8.ValidUtf8Iff | src/api/python/erlang.py:642-655 | the strict decoding of a name accepts bytes if and only if they are the UTF-8 form of some code points: no overlong form, no surrogate, nothing above U+10FFFF |
| FunctionPayloads.FunctionReadsBackIff | src/api/python/erlang.py:584-641 | a function is read back if and only if its payload is one that the format allows behind its tag: for NEW_FUN_EXT a size that counts itself, for EXPORT_EXT two atoms and an arity, for FUN_EXT a count, a pid, an atom, two integers and as many terms |
| EncodingLaws.PrefixFree | src/api/python/erlang.py:748-804 | no encoding is a proper prefix of another; equal encodings have equal normal forms |
| EncodingLaws.UniquelyDecodable | src/api/python/erlang.py:673-678 | a concatenation of encodings determines the normal forms and their number |
| EncodingLaws.SameBytesIffSameNormalForm | src/api/python/erlang.py:748-788 | for stable terms: same bytes if and only if same normal form |
| EncodingLaws.TermToBinaryRoundTrip | src/api/python/erlang.py:440-480 | whatever `term_to_binary` returns, at any compression level or none, `binary_to_term` turns into the normal form, given only that inflate undoes deflate |
| EncodingLaws.CompressedRoundTrip | src/api/python/erlang.py:656-669 | the compressed form: recorded size, inner cursor and outer cursor all come out right |
| EncodingLaws.PlainRoundTrip | src/api/python/erlang.py:440-459 | the uncompressed form ends exactly at the data size and so passes the final comparison |
| EncodingLaws.ProperPrefixRefused | src/api/python/erlang.py:452-459 | every proper prefix of a written message is refused |
| EncodingLaws.FinalCheckIsEnough | src/api/python/erlang.py:452-454 | for every input: the one comparison at the end accepts exactly what checking each slice would accept |
| EncodingLaws.TrailingBytesRefused | src/api/python/erlang.py:452-454 | a message with anything behind its term is refused |
| EncodingLaws.AcceptedIffOneTerm | src/api/python/erlang.py:452-454 | for every input: accepted if and only if it starts with the version, has more than one byte, and one term behind the version ends exactly where the data ends; that term is the result |
| EncodingLaws.CompressedIffOneTerm | src/api/python/erlang.py:656-669 | for every input: a compressed term is accepted if and only if it inflates to as many bytes as it records, more than none, and those are exactly one term |
| EncodingLaws.CompressedTrailingRefused | src/api/python/erlang.py:656-669 | a compressed message is refused when anything is behind the term inside, or another size is recorded |
| BoundsChecking.TermAgree | src/api/python/erlang.py:484-671 | checked and unchecked readings agree from any cursor unless the cursor leaves the data |
| Truncation.TermFollow | src/api/python/erlang.py:484-744 | a term whose bytes are cut short anywhere is refused or leaves its cursor beyond the data for good; uncut it reads as before |
| DecoderLaws.Transport | src/api/python/erlang.py:484-744 | a strict reading gives the same term, at the shifted cursor, wherever its bytes stand in whatever data |
| Locality.DependsOnConsumedBytes | src/api/python/erlang.py:484-671 | a reading depends on the bytes it consumed alone if and only if it meets no NEW_FUN_EXT with a size below 4 |
| Locality.ShortFunctionIsNotLocal | src/api/python/erlang.py:584-586 | the smallest reading that is not local |
| DecodedSize.NodesAtMostBytes | src/api/python/erlang.py:540-641 | without compression a term has at most as many values as the bytes it was read from, whatever counts the input claims |
| ErlangDecoder.Decode | src/api/python/erlang.py:484-671 | the cursor strictly increases through every branch, and with checked slices stays inside the data; the recursion ends for every input |
| ErlangDecoder.BinaryToTermSequence | src/api/python/erlang.py:673-678 | the loop returns what the recursive reading returns, or its first error |
| ErlangDecoder.BinaryToPairs | src/api/python/erlang.py:618-631 | the pair loop returns what the recursive reading returns: later values replace earlier ones under the same key |
| ErlangDecoder.FindKey | src/api/python/erlang.py:625-630 | the first stored key that a dict takes for the same, if any |
| DictKeys.SameKeyTransitive | src/api/python/erlang.py:625-630 | being the same key is transitive, which with symmetry and reflexivity makes the first stored match the only one |
| DictKeys.NumbersAsKeys | src/api/python/erlang.py:608-617 | True is 1 and False is 0 as a key, and no other two numbers are the same |
| DictKeys.ObjectsAsKeys | src/api/python/erlang.py:154-157 | objects are the same key if and only if they are written alike, and never the same as a plain value |
| DictKeys.HashableIff | src/api/python/erlang.py:625-630 | a key can be stored if and only if no path through its tuples leads to a list or a dict |
| DictKeys.StoreLaw | src/api/python/erlang.py:625-630 | storing changes the value of the keys that are the same as the stored one and of no other, and a new key joins the end only if none was the same; it fails just for a key that is not hashable |
| DictKeys.LastPairWins | src/api/python/erlang.py:618-631 | a dict that was read gives for each key the value of the last pair with that key |
| Reencoding.Again | src/api/python/erlang.py:229-255 | writing the normal form gives the same bytes if the term is stable, and fewer if not |
| Reencoding.ReencodesAlikeIffStable | src/api/python/erlang.py:555-563 | a second writing gives the same bytes if and only if no improper list with NIL as its only element is inside |
| Reencoding.ImproperNilIsNotStable | src/api/python/erlang.py:239-244 | the smallest unstable term and its two encodings |
| Reencoding.NormTwice | src/api/python/erlang.py:484-671 | the normal form of a normal form is itself |
| Integers.ValueOfDigits | src/api/python/erlang.py:850-853 | the value of the digits of a number is the number |
| Integers.DigitsOfValue | src/api/python/erlang.py:576-579 | digits without a leading zero are the digits of their value |
| Integers.DigitCount | src/api/python/erlang.py:850-854 | the digit loop emits n digits with 256^(n-1) <= magnitude < 256^n |
| Integers.BignumToBinary | src/api/python/erlang.py:844-866 | the loop splits off exactly the digits of the magnitude, sign and size before them |
| Integers.BignumFromDigits | src/api/python/erlang.py:576-579 | the high-to-low loop computes the value of the little-endian digits, or fails at the first index outside the data |
| Integers.ReverseInPlace | src/api/go/erlang/erlang.go:1206-1212 | the array ends up reversed |
| Integers.GoBignumToBinary | src/api/go/erlang/erlang.go:1174-1215 | Go writes the very bytes that Python returns for any integer |
| RoundTrip.IntegerRoundTrip | src/api/python/erlang.py:568-583 | every integer that can be written, small, 32-bit or big, reads back as itself |
| GoReader.BinaryToTerms | src/api/go/erlang/erlang.go:252-780 | index and reader stay in step through every branch, and what is read is what the grammar has at that index |
| GoReader.BinaryToTermSequence | src/api/go/erlang/erlang.go:782-796 | the same for the elements of a sequence |
| GoReader.BinaryToAtom | src/api/go/erlang/erlang.go:888-943 | the absolute reads hit the bytes of the name, and the seek brings the reader back to the index |
| GoReader.BinaryToBignum | src/api/go/erlang/erlang.go:501-548 | the absolute reads of the digits give the number, high digit first, and the seek skips them all |
| GoReader.BinaryToExport | src/api/go/erlang/erlang.go:564-593 | the payload is the bytes from the first atom to the arity |
| GoReader.BinaryToPidBody | src/api/go/erlang/erlang.go:824-886 | node, id, serial and creation of either width, in step |
| GoReader.BinaryToTerm | src/api/go/erlang/erlang.go:179-202 | accepted if and only if one term of the grammar ends exactly where the data ends |
| GoDecoder.Grammar | src/api/go/erlang/erlang.go:252-780 | a term starts before it ends and ends inside the data |
| Interoperation.GoAgreesIff | src/api/go/erlang/erlang.go:252-780 | where Python accepts an uncompressed term without NEW_FUN_EXT and FUN_EXT, Go accepts the same bytes as the same term (node names as in the next row) if and only if no non-empty map and no reference of 64 KiB or more is inside |
| Interoperation.NodeIsWholeIff | src/api/go/erlang/erlang.go:888-943 | a node name arrives whole in Go if and only if it and its length field together do not overflow the bits of the length field |
| Interoperation.FunInGo | src/api/go/erlang/erlang.go:677-710 | Go reads the same FUN_EXT when it agrees on the free variables |
| Interoperation.NewFunNeverAgrees | src/api/go/erlang/erlang.go:549-563 | for every NEW_FUN_EXT: exactly when each decoder accepts it, and that Go then ends 4 bytes behind Python, so they never agree |
| Interoperation.GoReadsPythonIff | src/api/python/erlang.py:748-866 | Go reads what Python writes if and only if Go can hold it |
| ReallocPtr.GreaterPow2 | src/api/c/realloc_ptr.hpp:144-154 | the least power of two at or above the product, for products below 2^31, and 2 for an empty product |
| ReallocPtr.LeastPow2IsLeast | src/api/c/realloc_ptr.hpp:144-154 | no smaller power of two will do |
| ReallocPtr.DoubledIsLeast | src/api/c/realloc_ptr.hpp:131-133 | the doubling loop stops at the least size * 2^k above the request |
| ReallocPtr.DoubledAtMostTwice | src/api/c/realloc_ptr.hpp:131-133 | which is at most twice the request |
| ReallocPtr.Buffer.Reserve | src/api/c/realloc_ptr.hpp:125-141 | succeeds exactly when the request is below the size, or not above the maximum with memory at hand; keeps all contents; changes nothing on failure; the sizes of all successful calls of realloc together stay below twice the capacity |
| ReallocPtr.Buffer.Grow | src/api/c/realloc_ptr.hpp:112-123 | doubles unless the maximum or the memory forbids it, and keeps the contents |
| ReallocPtr.Buffer.Copy | src/api/c/realloc_ptr.hpp:77-102 | the copied range is that of the source, the rest is as before |
| ReallocPtr.Buffer.Move | src/api/c/realloc_ptr.hpp:104-110 | the moved range holds what the source range held, overlapping or not |
| Subscriptions.Lookup.Insert | src/api/c/cloudi.cpp:306-318 | the objects represent the table with the callback behind the others of its pattern |
| Subscriptions.Lookup.Remove | src/api/c/cloudi.cpp:320-329 | the oldest callback is dropped and with the last one the pattern, so no queue is ever empty |
| Subscriptions.Lookup.Find | src/api/c/cloudi.cpp:331-337 | the front callback, which goes to the back; the null response for an unknown pattern |
| Subscriptions.CallbackQueue.Cycle | src/api/c/cloudi.cpp:287-295 | the rotation, also in the short cut for one callback; the separate size stays the length |
| Subscriptions.CountIsBalance | src/api/c/cloudi.cpp:306-329 | over any run a pattern has as many callbacks as inserts minus successful removals |
| Subscriptions.InsertsQueueUp | src/api/c/cloudi.cpp:306-318 | a run of inserts puts their callbacks behind those of the pattern, in order, and leaves all else |
| Subscriptions.RemovesDropOldest | src/api/c/cloudi.cpp:320-329 | a run of removals drops the oldest callbacks, and the pattern with the last one |
| Subscriptions.OtherPatternsDoNotMatter | src/api/c/cloudi.cpp:306-337 | operations on other patterns leave a queue as it is |
| Subscriptions.TurnedPermutes | src/api/c/cloudi.cpp:331-337 | finds only permute |
| Subscriptions.RunOfFinds | src/api/c/cloudi.cpp:306-337 | over any run that only finds a pattern, whatever it does with others in between, the finds return its callbacks in turn and leave the queue turned as often |
| Subscriptions.FairRun | src/api/c/cloudi.cpp:306-337 | in such a run with k finds each of n distinct callbacks is called floor(k/n) or ceil(k/n) times |
| Subscriptions.FullTurn | src/api/c/cloudi.cpp:287-295 | as many finds as callbacks restore the order |
| Subscriptions.CallsAt | src/api/c/cloudi.cpp:287-295 | the j-th of consecutive finds calls slot j mod n |
| Subscriptions.Fair | src/api/c/cloudi.cpp:287-295 | any k consecutive finds, wherever they start, call each of n slots floor(k/n) or ceil(k/n) times |
| Framing.SplitStream | src/api/c/cloudi.cpp:450-470 | framed messages split back into themselves and no byte behind them is touched |
| Framing.ReadExact | src/api/c/cloudi.cpp:428-447 | under any short reads exactly the asked-for bytes are taken |
| Framing.ReadAll | src/api/c/cloudi.cpp:450-470 | the next message and nothing behind it is taken from the stream |
| Framing.WriteExact | src/api/c/cloudi.cpp:495-523 | under any short writes header and message come out whole, once and in order |
| Framing.SendAll | src/api/c/cloudi.cpp:495-523 | any sequence of messages becomes the stream of their frames |
| Framing.ReceiveAll | src/api/c/cloudi.cpp:428-470 | n reads give the n messages that the stream holds, all of them unless the connection breaks or one does not fit |
| Framing.Exchange | src/api/c/cloudi.cpp:428-523 | n framed writes and then n framed reads give the same n messages, under any fragmentation |
| Framing.GoReceiver.RecvFragment | src/api/go/cloudi/cloudi.go:1349-1366 | no byte is lost between socket and buffer, none beyond the asked-for size is taken |
| Framing.GoReceiver.Recv | src/api/go/cloudi/cloudi.go:1283-1347 | the next message of the stream, with nothing of the one behind it taken |
| KeyValueText.TextKeyValueParse | src/api/c/cloudi.cpp:1776-1796 | within the limit of the array every store is in bounds, and the array holds the offsets that the scan finds and then a null |
| KeyValueText.OffsetsAreStartsIff | src/api/c/cloudi.cpp:1776-1796 | these are the starts of the printed strings if and only if no string but the last is empty |
| KeyValueText.EmptyStringLosesStart | src/api/c/cloudi.cpp:1776-1796 | the smallest text for which they are not |
| KeyValueText.GoTextKeyValueParse | src/api/go/cloudi/cloudi.go:1242-1256 | each key of the text is mapped to the ordered list of its values |
| KeyValueText.GoParsesPrinted | src/api/go/cloudi/cloudi.go:1242-1256 | the pairs of a printed text are the pairs that were printed, empty strings included |
| FrameLaws.LayoutRecovered | src/lib/cloudi_core/src/cloudi_core_i_services_external.erl:1820-2009 | any events, message and events that the core lays out are recovered by C++ from a buffer with any old contents behind the frame, and by Python just when no text lacks its NUL |
| FrameLaws.ParsersAgree | src/api/python/cloudi.py:557-686 | for all byte strings: Python accepts just what C++ accepts on the exact frame, except a name, pattern or prefix of size 0, and recovers the same message and events |
| FrameLaws.MessageAgrees | src/api/python/cloudi.py:559-657 | the same for one message: grouped reads of slices against single reads by an index |
| FrameLaws.StaleBytes | src/api/c/cloudi.cpp:1419-1480 | the walk over a buffer accepts a frame and ends inside of it just when it accepts the exact frame, and then finds the same |
| FrameLaws.StaleBytesDecideIff | src/api/c/cloudi.cpp:1419-1480 | acceptance depends on what lies behind the frame if and only if the walk over the exact frame stops at one to three first bytes of TERM; otherwise what is accepted is also read alike |
| FrameLaws.StaleTerm | src/api/c/cloudi.cpp:1439-1447 | a frame of that kind, accepted and refused |
| FrameLaws.SameText | src/api/c/cloudi.cpp:1555-1562 | C++ callbacks see the text that Python cuts out if and only if its NUL is last and its only one |
| PythonEvents.API.HandleEvents | src/api/python/cloudi.py:492-522 | the attributes take the events in order up to the first TERM, each KEEPALIVE is echoed, and each ending has its result or exception |
| Polling.Instance.HandleEvents | src/api/c/cloudi.cpp:1419-1480 | the same for the C++ instance: state, echoes, result and the four endings |
| Polling.Instance.TakeMessage | src/api/c/cloudi.cpp:1529-1655 | a message and the events behind it have the effect of the frame; a request is dispatched just when the frame ends without TERM |
| Polling.Instance.TakeFrame | src/api/c/cloudi.cpp:1521-1706 | one frame: settings, echoes, termination, result and the misuse assertions, with events in front of the message as well |
| Polling.LastReinitWins | src/api/c/cloudi.cpp:1448-1455 | after any events with a REINIT, process count, async timeout, sync timeout and priority are those of the fields of the last one, each in its place |
| Polling.EventsKeepTheRest | src/api/c/cloudi.cpp:1419-1480 | no event changes any of the other six settings |
| Polling.InitGivesAll | src/api/c/cloudi.cpp:1529-1543 | INIT gives each of the ten settings from its own field, and no other message gives any |
| Polling.LayoutTakesEffect | src/api/c/cloudi.cpp:1521-1706 | the settings after any frame that was laid out, and that it terminates just when it has a TERM |
| Polling.CallIsMessage | src/api/c/cloudi.cpp:1554-1579 | the pointers of a callback give the fields of the request while the call buffer is what it was |
| Polling.Instance.TakeReceived | src/api/c/cloudi.cpp:1521-1706 | a received frame changes the state as the history of frames says, and a request is dispatched just when it is one of those that must be |
| Polling.Instance.UserCode | src/api/c/cloudi.cpp:1275-1309 | any callback: nested polls leave the call buffer and the dispatched requests alone, so an answer carries the original identifiers; how it ended is on record |
| Polling.Instance.Callback | src/api/c/cloudi.cpp:1267-1390 | exactly one answer more than the callback swallowed; without swallowing it is one of the right kind with the identifiers of the request; after a callback that fell through or threw the last thing written is a return of the kind, timeout, trans_id and pid of the request with empty response info and response, and with its name and pattern up to their NUL; the process ends only for an unknown exception, an answer of the wrong kind, the end of a nested poll, or an empty response that cannot be written |
| Polling.Instance.PollRequest | src/api/c/cloudi.cpp:1482-1737 | after an external poll the requests read have been dispatched and answered once and in order unless an exception was swallowed, and settings, echoes and termination are those of all frames read; the status is that of the last frame that this poll read itself, or what came of its last wait (no frame in time, a read error, an empty frame), unless polling could not be written; an internal poll neither dispatches nor answers; once terminated nothing is read or written and terminate stays set |
| Polling.Instance.PollingStarts | src/api/c/cloudi.cpp:1220-1236 | the assertion holds at the one call, and polling is written for the first time |
| Polling.Instance.Initialize | src/api/c/cloudi.cpp:603-621 | init is the first term, and polling has not been written |
| Polling.Service | src/api/c/cloudi.cpp:1482-1743 | a whole run: init first and once, polling at most once and before any request; the dispatched requests are, in order, those of the frames read that end without TERM, and the answers match them one for one unless an exception was swallowed; the settings are those of all frames, and each KEEPALIVE has been echoed |
| JavaScriptScheduler.API.PollWait | src/api/javascript/CloudI.js:997-1012 | an operation starts at once if nothing is pending or awaited, else it joins the end of the queue with a timer |
| JavaScriptScheduler.API.RetryTimerFires | src/api/javascript/CloudI.js:981-995 | the queue is never empty when a live timer shifts it; the oldest operation starts, or the timer is set again |
| JavaScriptScheduler.API.ResponseArrives | src/api/javascript/CloudI.js:903-914 | the response goes to the callback that awaits it; what that callback calls is queued, not sent, until the response has been dealt with |
| JavaScriptScheduler.API.Start | src/api/javascript/CloudI.js:372-389 | an operation is written behind those already written; a request then awaits its response with its own callback, the one whose turn is next |
| JavaScriptScheduler.EventLoop | src/api/javascript/CloudI.js:257-315 | over every interleaving: operations are written in the order of their calls, none lost or doubled, at most one request awaits a response, the live timers number the queued operations, and the responses reach, in order, the initial callback and then those of the requests as they were sent |

## Left out

- Sockets, poll and select, timers, environment variables, errno, backtraces, exit handlers: what they deliver is an arbitrary choice.
- zlib: an inverse pair; the nesting of compressed terms is bounded by a parameter, beyond which the model returns an error (Python's own recursion limit is not modelled).
- FLOAT_EXT text and `consult`: such input is an error in the model. Floats are their eight bytes.
- Python 2 strings, and Python strings that have no UTF-8 form (lone surrogates).
- ErlangDecoder.BinaryToPairs: stores keys as ErlangDecoder.FindKey compares them, with the limits named there.
- ErlangDecoder.FindKey: dict keys are compared as Python does for the kinds that can be keys here; a dict inside a dict key (frozendict) counts as unhashable, floats are compared by their bytes, and an atom with a text equal to one with bytes only if they are encoded alike.
- GoReader.BinaryToTerms: compressed terms, FLOAT_EXT, the memory that a huge length allocates, and the panic of a non-empty map (an error in the model). Of Go's encoders only the bignum.
- Interoperation.GoAgreesIff: FUN_EXT inside of other terms, whose free variables the Python value does not keep, and compressed terms.
- ReallocPtr.GreaterPow2: products of 2^31 and more, where the shift of an int overflows. The limit of 2^31 bytes of the protocol buffers is such a product; a buffer has any maximum in the model.
- ReallocPtr.Buffer.Reserve: does not bound the sizes of calls of realloc that fail.
- `realloc_ptr::release`, which leaves the size as it was.
- KeyValueText.TextKeyValueParse: memory for the array is always found (the source does not look at the result of `reserve`), and texts of more strings than the largest array holds are not covered.
- Framing.ReadAll: the branch for datagrams without a header; the same in Framing.GoReceiver.Recv. No deadline fires inside of a message.
- Python's `__recv`, `__send` and `__callback`, and its subscription table: the same design as in C++.
- FrameLaws.ParsersAgree: decoding of names and patterns as UTF-8 and of the pid as a term, either of which may raise in Python; which attribute the INIT fields go to (Python exchanges two timeouts).
- Polling.Instance.Answer: says nothing of the text, the timeout and the payload of an answer, which are the callback's choice; a callback answers with the pointers it was given.
- Polling.Instance.UserCode: a callback that calls the external `cloudi_poll` itself, and writes through the pointers.
- Polling.Instance.TakeMessage: the copy into buffer_call always finds memory (the source does not look at its result), and the call buffer is as long as the one it was copied from.
- Polling.Instance.PollRequest: what the state is after a keepalive could not be written, beyond the conservation of requests and answers.
- Polling.Instance.Receive: that the core sends no request while a service awaits a response is assumed of it; `buffer_recv` is a value, so pointers of an older response into it are not modelled.
- Time limits of polls: any wait may time out at any time, and so may a poll after each frame.
- uint32 wrap-around of the C++ index: frames are far below that size.
- JavaScript's reassembly of chunks: its model starts at whole frames. A TERM in a frame ends the run before the response callback is called.
- Go's `pollRequest`, which does not go on behind a REINIT or KEEPALIVE.
- The PHP, Ruby and JavaScript codecs, the CPython wrapper, `copy_ptr`, the C++ callback adapters, the OS process glue and the dashboard.
