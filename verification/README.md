# unbound4j core in Dafny

A model of the native core of unbound4j, OpenNMS's reverse-DNS library built on
libunbound, with proofs about it. It covers three parts.

- **The wire-to-text decoder** (`jni/src/sldns.c`, module `Sldns` over the writer
  in module `Writer`). This is the bounded writer `sldns_str_vprint`/`sldns_str_print`
  and the escaping routines `str_char_print` and `dname_char_print`. It also covers
  `sldns_wire2str_str_scan` and `sldns_wire2str_dname_scan`, which reads labels,
  follows compression pointers and stops after 1000 hops, and the rdata wrappers.
  - The decoder is a sequence of output operations (`Piece`s).
  - `Emit` runs those operations through a shrinking window, so the returned count
    and the stored prefix are both stated.
  - The label loop is one step function (`Step`) iterated by `Spool`.
  - Module `Presentation` is the partner: a reader for master-file text (section
    5.1 of RFC 1035) and the wire encoder of uncompressed names (section 3.1 of
    RFC 1035). The round-trip lemmas are stated against it.
- **The reverse-name builders** (`jni/src/dnsutils.c`, module `DnsUtils`). These
  build the IN-ADDR.ARPA name (section 3.5 of RFC 1035) and the IP6.ARPA name
  (section 2.5 of RFC 3596). Each has a reader for its format, and the lemmas show
  that the builder and the reader invert each other exactly.
- **The broker** (`jni/src/unbound4j.c`, module `Unbound4j`) as a sequential state
  machine. It holds:
  - the context table and its id generator;
  - the one global query table, in insertion order;
  - the queries each libunbound engine still holds;
  - a log of cancellations, answers and callbacks into freed queries.

  Each library call, each pass of a processing thread and each engine callback is
  one transition. `Unbound4jProofs` proves two things:
  - in every run, every accepted query gets exactly one `Delivered` event
    (`Valid`). Under the code as written an engine may still call back into a
    freed query, which runs the caller's callback a second time (a `Stale`
    event). With each thread confined to its own engine's queries, no run from
    load ever logs one, so every caller's callback runs exactly once per query
    (`AnsweredOnceFromLoad`);
  - context ids are never reused, as long as the id generator does not wrap
    (see "Left out").

  It also states what goes wrong when one context's thread cleans up another
  context's queries. `CallbackProofs` does the same for the hostname buffer of
  the callback.

Bytes are `int`s in 0..255 (`Base.byte`). Text is a `string`. The clock,
libunbound's results and the setup calls' return codes are parameters.

## Model

| member | source | states |
|---|---|---|
| Writer.StrPrint | jni/src/sldns.c:10-34 | The count is always the full length of the text. The window keeps a prefix of the text and never grows. The whole text is stored when it fits with room for the NUL; otherwise the window is left as (NULL, 0). |
| Writer.PutChar | jni/src/sldns.c:41-46 | A direct store adds the character only when room is left, and counts 1 either way. |
| Writer.Emit | jni/src/sldns.c:60-66 | The summed count of a run of writes is the length of their complete text, whatever the window's size. The window holds a prefix of that text, all of it when it fits, and is exhausted when the text is longer than the room. |
| Writer.TerminatedBound | jni/src/sldns.c:12-21 | If a NUL follows the stored text, the text is shorter than the buffer. |
| Writer.TerminatedByLast | jni/src/sldns.c:12-21 | Output whose last write is formatted, and which fits, is NUL-terminated. |
| Sldns.StrScan | jni/src/sldns.c:51-67 | Returns -1, consuming nothing and writing nothing, exactly when the input is empty or shorter than 1 + its length octet. Otherwise it consumes exactly 1 + length bytes and counts and stores the quoted, escaped string. |
| Sldns.AfterLoop | jni/src/sldns.c:150-154 | Skips the root octet exactly when still reading the input and it has bytes left. When nothing was printed the text is exactly "."; otherwise the output is left as it was. |
| Sldns.Step | jni/src/sldns.c:100-149 | One pass of the label loop never gives back input. While reading the input it consumes at least one octet. After a pointer it either follows one more pointer or advances in the packet. The overread happens only without the end-of-packet test, at the packet's end. |
| Sldns.Spool | jni/src/sldns.c:100-149 | The loop ends. It consumes at most the input, and nothing more once a pointer has been followed. |
| Sldns.DnameSpoolWith | jni/src/sldns.c:94-99 | Never consumes more than the input, and always consumes something from a nonempty input. The overread is possible only in the loop as written and with a packet. |
| Sldns.DnameScan | jni/src/sldns.c:85-155 | The count is the length of the full presentation text whatever the window. The window holds a prefix of that text, and at most the input is consumed. The text is that of the corrected loop (`DnameSpool`); `AsWrittenAgrees` shows it equals the loop as written whenever no packet is given or the overread does not happen. |
| Sldns.RdataScan | jni/src/sldns.c:157-161 | Every record type is decoded as a domain name, by the corrected loop; without a packet this is the loop as written (`AsWrittenAgrees`). |
| SldnsProofs.EmptyNameMissing | jni/src/sldns.c:94 | An empty input consumes nothing and prints exactly ErrorMissingDname. |
| SldnsProofs.RootNameDot | jni/src/sldns.c:95-99 | A leading zero octet consumes exactly one octet and prints exactly ".". |
| Sldns.RdataBuf | jni/src/sldns.c:163-169 | The buffer holds a prefix of the name's text, with no packet to follow pointers into. The count is the text's full length, and the whole text is stored when it is shorter than the buffer. |
| SldnsProofs.DnameCharReadsBack | jni/src/sldns.c:70-83 | The text printed for any label octet reads back as that octet. `. ; ( ) \` get a backslash, non-graphic octets get `\DDD`, and the rest print as themselves. |
| SldnsProofs.StrCharReadsBack | jni/src/sldns.c:36-49 | The text printed for any character-string octet reads back as that octet and never begins with an unescaped double quote. `"` and `\` get a backslash, other octets that are neither printable nor a tab get `\DDD`, and the rest print as themselves. |
| SldnsProofs.StrCharsReadBack | jni/src/sldns.c:61-62 | The escaped bytes of a character-string read back as those bytes. |
| SldnsProofs.StrScanReadsBack | jni/src/sldns.c:51-67 | A complete character-string is printed between double quotes, its count is the text's length, and the inside reads back as its bytes. |
| SldnsProofs.LabelReadsBack | jni/src/sldns.c:140-148 | An escaped label followed by its dot reads back as the label. |
| SldnsProofs.DottedReadsBack | jni/src/sldns.c:100-149 | A run of valid labels, each printed with its dot, reads back as those labels. |
| SldnsProofs.WellFormedName | jni/src/sldns.c:100-151 | The wire form of a well-formed uncompressed name is consumed exactly, root octet included. The output is each escaped label with a dot, or "." for the root. This holds for the loop as written too. |
| SldnsProofs.NameRoundTrip | jni/src/sldns.c:85-155 | Decoding a name's wire form and reading the text back gives the name, whatever follows it in the input. |
| SldnsProofs.HostnameRoundTrip | jni/src/sldns.c:163-169 | The PTR rdata of a well-formed name decodes into the 256-byte buffer as text that reads back as the name, whenever the text is shorter than the buffer. |
| SldnsProofs.TruncatedName | jni/src/sldns.c:136-147 | A last label that runs past the input is cut to the bytes that remain, and the whole input is consumed. Decoding stops with no error token and no dot after the cut label; when the input is the length octet alone, nothing was counted and "." is printed. |
| SldnsProofs.PointerEndsInput | jni/src/sldns.c:106-126 | After a pointer the input advances past its two octets and no further. A target outside the packet, or no packet at all, ends in ErrorComprPtrOutOfBounds. |
| SldnsProofs.RdataBufPointer | jni/src/sldns.c:118-120 | Because no packet is passed, every pointer in rdata handed to sldns_wire2str_rdata_buf is reported as out of bounds: the buffer holds a prefix of the labels so far followed by "ErrorComprPtrOutOfBounds", all of it when it fits. |
| SldnsProofs.PartialPointer | jni/src/sldns.c:109-111 | A pointer octet with nothing after it gives ErrorPartialDname and consumes the whole input. |
| SldnsProofs.UnknownLabelType | jni/src/sldns.c:127-133 | A length octet whose top bits are 01 or 10 gives ErrorLABELTYPE40IsUnknown or ErrorLABELTYPE80IsUnknown, and decoding stops right after that octet. |
| SldnsProofs.SelfLoopStops | jni/src/sldns.c:121-123 | A pointer to itself is followed 1001 times. Decoding then stops with ErrorComprPtrLooped rather than looping. |
| SldnsProofs.OverreadWitness | jni/src/sldns.c:100 | As written, a followed pointer to a label that ends at the packet's end makes the loop condition read one octet past the packet. With the end-of-packet test, the same input decodes as "a.". |
| SldnsProofs.AsWrittenAgrees | jni/src/sldns.c:100-149 | The loop as written and the corrected loop give the same result whenever the overread does not happen, and it never happens without a packet. |
| DnsUtils.ReverseV4 | jni/src/dnsutils.c:28-34 | The name is the four decimal octets, last first, and ".in-addr.arpa". It is at most 28 characters, so the 32-byte buffer never cuts it, and it has no trailing dot. |
| DnsUtils.ReverseV6 | jni/src/dnsutils.c:42-59 | The name is exactly 72 characters: 64 characters of nibble labels, then "ip6.arpa", with no trailing dot. |
| DnsUtils.WriteNibbles | jni/src/dnsutils.c:49-56 | The loop from the last octet down to the first writes each octet's low digit, a dot, its high digit and a dot. |
| DnsUtils.BuildReverseV6 | jni/src/dnsutils.c:42-59 | The nibble loop followed by the suffix printed at offset 64 is the IP6.ARPA name. |
| DnsUtilsProofs.OctetRoundTrip | jni/src/dnsutils.c:30-32 | The "%u" text of an octet reads back as the octet, and no other field reads as it. |
| DnsUtilsProofs.ReverseV4ReadsBack | jni/src/dnsutils.c:28-34 | Reading the IN-ADDR.ARPA name of an address gives the address. |
| DnsUtilsProofs.ReverseV4Unique | jni/src/dnsutils.c:28-34 | The only text that reads as an address is that address's name. |
| DnsUtilsProofs.ReverseV4Exact | jni/src/dnsutils.c:28-34 | A text reads as an address if and only if it is the name built for that address. |
| DnsUtilsProofs.ReverseV4Example | jni/src/dnsutils.c:28-34 | 192.0.2.5 gives "5.2.0.192.in-addr.arpa": the example in the comment at unbound4j.c:283, without its trailing dot. |
| DnsUtilsProofs.ReverseV6Shape | jni/src/dnsutils.c:44-56 | The first 64 characters are 32 one-digit labels of lower-case hexadecimal, each followed by a dot. |
| DnsUtilsProofs.NibblesReadBack | jni/src/dnsutils.c:50-56 | The nibble labels of any octets read back as those octets. |
| DnsUtilsProofs.NibblesExact | jni/src/dnsutils.c:50-56 | The only text that reads as some octets is their nibble labels. |
| DnsUtilsProofs.ReverseV6Exact | jni/src/dnsutils.c:42-59 | A text reads as a 16-octet address if and only if it is the name built for that address. |
| DnsUtilsProofs.ReverseV6Example | jni/src/dnsutils.c:42-59 | 2001:db8::567:89ab gives "b.a.9.8.7.6.5.0.0.0.0.0.0.0.0.0.0.0.0.0.0.0.0.0.8.b.d.0.1.0.0.2.ip6.arpa": the example in the comment at unbound4j.c:284, without its trailing dot. |
| Unbound4j.Find | jni/src/unbound4j.c:187 | A query is found exactly when its handle is in the table, and what is found is a table query with that handle. |
| Unbound4j.Without | jni/src/unbound4j.c:253 | HASH_DEL removes exactly the handle and keeps every other query, so distinct tables stay distinct; a handle not in the table leaves it unchanged. |
| Unbound4j.WithoutCutsOne | jni/src/unbound4j.c:253 | In a table of distinct queries, HASH_DEL cuts out exactly the entry with the handle and keeps the others in their order. |
| Unbound4j.Scan | jni/src/unbound4j.c:397-411 | A pass loses no query. With a deadline it removes only expired queries. Over the whole table it removes a prefix and stops at the first query that has not expired. Without a deadline it removes every query it may touch. |
| Unbound4j.ScanMembers | jni/src/unbound4j.c:426-435 | Every query of the table is kept or removed, and nothing else is. |
| Unbound4j.HostnameAsWritten | jni/src/unbound4j.c:224-232 | The uncleared 256-byte buffer holds a prefix of the decoded name. When it is NUL-terminated, the string is shorter than 256 characters and is the corrected hostname. |
| Unbound4j.Hostname | jni/src/unbound4j.c:224-232 | With the last byte kept for the NUL, the caller gets at most 255 characters that begin the decoded name, and the whole name when it is shorter than the buffer. |
| Unbound4j.CallbackOutcome | jni/src/unbound4j.c:220-248 | There is an error exactly when the engine reported one: "Query timed out." exactly for an expired query, otherwise the engine's error. There is a hostname exactly when there is no error and the answer has data, decoded into the corrected buffer of `Hostname` (cleared, last byte kept for the NUL); the code as written hands over the possibly unterminated malloc buffer of `HostnameAsWritten` (see Findings). So the two are never both present. |
| Unbound4j.Withdraw | jni/src/unbound4j.c:403 | ub_cancel drops only queries of the engine it is called on. |
| Unbound4j.Sweep | jni/src/unbound4j.c:380-415 | Contexts and counters are unchanged, and only expired queries leave the table. Over the whole table, when the head has not expired the state is exactly as before, and otherwise what remains is a suffix whose head has not expired. The log only grows and engines only lose queries. |
| Unbound4j.Drain | jni/src/unbound4j.c:418-438 | When a thread stops, the whole table is emptied. Contexts and counters are unchanged. |
| Unbound4j.EngineCallback | jni/src/unbound4j.c:248-260 | The engine stops holding the query and its handle leaves the table. Exactly one event is logged: the answer when the query was still tracked, and otherwise a callback into a freed query with the table untouched. |
| Unbound4j.CreateContext | jni/src/unbound4j.c:93-175 | The setup checks run in order and the first that fails gives the reason: no engine, resolv.conf, hosts, the Unbound file (with its path), async mode, the descriptor, the thread. Each of these failures leaves the state unchanged. The id is spent exactly when the thread starts. A context is added under that id, with the configured timeout, exactly when the table lock is also taken; if the lock fails, no context is added and the stopped thread drains the query table. |
| Unbound4j.DeleteContext | jni/src/unbound4j.c:177-216 | An unknown id changes nothing. A known id removes exactly that entry from the context table, and its engine, deleted, no longer holds any query; other engines keep theirs. |
| Unbound4j.Destroy | jni/src/unbound4j.c:62-83 | Every context visited is deleted and the others stay. |
| Unbound4j.ReverseName | jni/src/unbound4j.c:286-293 | A name is built exactly for addresses of 4 or 16 octets. |
| Unbound4j.ReverseLookup | jni/src/unbound4j.c:263-346 | An unknown context gives -1 with "Invalid context id.", and a bad length gives -1 with the length. The result is libunbound's code otherwise. Every failure leaves the state unchanged. Success appends one query expiring at now + the context's timeout, and the context's engine then holds its reverse name. |
| Unbound4jProofs.DeliveriesTimeOut | jni/src/unbound4j.c:398-411 | Expiring distinct queries answers each of them once and no other. |
| Unbound4jProofs.TimeOutAnswers | jni/src/unbound4j.c:426-435 | Each removed query is cancelled and answered with "Query timed out." and no hostname. |
| Unbound4jProofs.ScanDistinct | jni/src/unbound4j.c:398-411 | Over distinct queries, kept and removed are distinct, and no query is both. |
| Unbound4jProofs.InitValid | jni/src/unbound4j.c:37-40 | The loaded state satisfies the exactly-once invariant. |
| Unbound4jProofs.ExpireValid | jni/src/unbound4j.c:397-411 | Removing and answering queries keeps every accepted query answered exactly once. |
| Unbound4jProofs.SweepValid | jni/src/unbound4j.c:380-415 | A sweep keeps the invariant. |
| Unbound4jProofs.DrainValid | jni/src/unbound4j.c:418-438 | A drain keeps the invariant. |
| Unbound4jProofs.CreateValid | jni/src/unbound4j.c:93-175 | Creating a context keeps the invariant. |
| Unbound4jProofs.DeleteValid | jni/src/unbound4j.c:177-201 | Deleting a context keeps the invariant. |
| Unbound4jProofs.DestroyValid | jni/src/unbound4j.c:62-83 | Destroying the library keeps the invariant. |
| Unbound4jProofs.LookupValid | jni/src/unbound4j.c:263-346 | A lookup keeps the invariant. |
| Unbound4jProofs.CallbackValid | jni/src/unbound4j.c:220-261 | An engine callback keeps the invariant. |
| Unbound4jProofs.RunValid | jni/src/unbound4j.c:220-261 | In any run of calls, passes and callbacks, every accepted query gets exactly one `Delivered` event: none while tracked, one after. Callbacks into freed queries are not counted here. The id generator never goes back. |
| Unbound4jProofs.IdsNeverReused | jni/src/unbound4j.c:158-159 | A created context's id was not in use, and any context created later, after anything at all, gets a larger id (with an unbounded generator). |
| Unbound4jProofs.DeleteUndoesCreate | jni/src/unbound4j.c:185-190 | Deleting a context just created gives back the context table it was created in. |
| Unbound4jProofs.DefaultTimeout | jni/src/unbound4j.c:85-89 | A context created from the default configuration gives its queries five seconds. |
| Unbound4jProofs.LookupNameReadsBack | jni/src/unbound4j.c:286-289 | The name a lookup submits reads back as the address looked up. |
| Unbound4jProofs.SweepRemovesExpired | jni/src/unbound4j.c:380-411 | When the table is ordered by expiry, the early exit is sound: a query leaves exactly when it has expired. |
| Unbound4jProofs.LookupKeepsOrder | jni/src/unbound4j.c:317-339 | A lookup keeps the table ordered when its expiry is no earlier than any other. |
| Unbound4jProofs.WithoutKeepsOrder | jni/src/unbound4j.c:253 | Removing one query keeps the order. |
| Unbound4jProofs.AnswerKeepsOrder | jni/src/unbound4j.c:250-258 | An engine callback keeps the table ordered. |
| Unbound4jProofs.SweepKeepsOrder | jni/src/unbound4j.c:397-411 | A sweep keeps the table ordered. |
| Unbound4jProofs.MixedTimeoutsDelayExpiry | jni/src/unbound4j.c:380-411 | With two contexts of different timeouts, an expired query behind one with a longer timeout survives the sweep. |
| Unbound4jProofs.StaleCallbackAsWritten | jni/src/unbound4j.c:425-435 | As written, deleting one context times out and frees another context's query and cancels it on the wrong engine. The owning engine still holds it, so its answer arrives for a freed query. |
| Unbound4jProofs.ExpireCoherent | jni/src/unbound4j.c:397-411 | A thread confined to its own queries keeps every held query tracked under the same engine and id. |
| Unbound4jProofs.CreateCoherent | jni/src/unbound4j.c:93-175 | Creating a context keeps the engines and the table in step. |
| Unbound4jProofs.DeleteCoherent | jni/src/unbound4j.c:177-201 | Deleting a context keeps them in step. |
| Unbound4jProofs.DestroyCoherent | jni/src/unbound4j.c:62-83 | Destroying the library keeps them in step. |
| Unbound4jProofs.LookupCoherent | jni/src/unbound4j.c:323-339 | A lookup keeps them in step. |
| Unbound4jProofs.CallbackCoherent | jni/src/unbound4j.c:250-258 | An engine callback keeps them in step. |
| Unbound4jProofs.SweepCoherent | jni/src/unbound4j.c:380-415 | A sweep confined to its own queries keeps them in step. |
| Unbound4jProofs.RunCoherent | jni/src/unbound4j.c:348-441 | With confined threads, every run keeps the engines and the table in step. |
| Unbound4jProofs.NoStaleCallback | jni/src/unbound4j.c:425-435 | With confined threads, from load onward, every engine callback finds its query and answers the caller. |
| Unbound4jProofs.OtherContextSurvivesDelete | jni/src/unbound4j.c:177-201 | With confined threads, deleting one context leaves another context's query tracked, and that engine's answer reaches the caller. |
| Unbound4jProofs.TimeOutStaleFree | jni/src/unbound4j.c:398-411 | Timing queries out logs cancellations and answers, never a callback into a freed query. |
| Unbound4jProofs.DrainStaleFree | jni/src/unbound4j.c:418-438 | A drain, in either scope, logs no callback into a freed query. |
| Unbound4jProofs.DestroyStaleFree | jni/src/unbound4j.c:62-83 | Destroying the library logs no callback into a freed query. |
| Unbound4jProofs.ApplyStaleFree | jni/src/unbound4j.c:93-201 | Only an engine callback can log a callback into a freed query: creating, deleting, destroying, looking up and sweeping never do. |
| Unbound4jProofs.CallbackStaleFree | jni/src/unbound4j.c:220-261 | With every held query tracked under its engine, an engine callback logs no callback into a freed query. |
| Unbound4jProofs.RunStaleFree | jni/src/unbound4j.c:220-261 | With confined threads, every run from a consistent state keeps exactly one answer per query and logs no callback into a freed query. |
| Unbound4jProofs.AnsweredOnceFromLoad | jni/src/unbound4j.c:220-261 | With confined threads, from load onward, every accepted query gets exactly one answer and no engine calls back into a freed query, so the caller's callback runs exactly once per query. |
| CallbackProofs.DottedEndsWithDot | jni/src/sldns.c:148 | The text of a run of complete labels ends with a formatted dot. |
| CallbackProofs.ZeroLabelText | jni/src/sldns.c:74-75 | A label of n zero octets prints as n four-character escapes. |
| CallbackProofs.ShortNameTerminated | jni/src/unbound4j.c:224-232 | A well-formed name whose text is shorter than the buffer is NUL-terminated as written, so the caller gets exactly the decoded name. |
| CallbackProofs.UnterminatedHostname | jni/src/unbound4j.c:224-232 | For a valid 69-octet name, as written, the 256 bytes are all text and no NUL follows them. The corrected hostname is its first 255 characters. |
| CallbackProofs.CutLabelUnterminated | jni/src/unbound4j.c:224-232 | For the rdata 3 'a' 'b', whose label runs past the end, as written "ab" is stored with no NUL after it. The corrected hostname, from a cleared buffer, is "ab". |

## Left out

- Threads, `select`, the read-write locks, the configuration mutex, the atomic id generator and the `stopping` flag are left out. Each library call, each pass of a processing thread and each engine callback is one atomic transition; race freedom is not modelled.
- Every failure to take a lock is left out, except the context-table write lock in `ub4j_create_context`. That one is a `Setup` parameter because it spends an id and drains the query table.
  - The failures at lines 67-70, 179-182, 265-268, 312-315, 375-378 and 392-395 only print a message or return -1 without changing the broker's state.
  - Two failures do change it and are not modelled. At lines 252-257 the callback skips HASH_DEL but still frees the query (line 260), so the table keeps a dangling entry that a later sweep or drain answers a second time. At lines 421-423 the drain goes ahead without the lock.
- The `pthread_join` failure in `ub4j_free_context` (lines 208-211) is left out. It only changes the return value.
- CreateContext: on a failed table lock (unbound4j.c:165-169) the C sets `stopping` and deletes the engine without joining the thread, so the thread's later drain calls `ub_cancel` on a freed engine and the context struct is never freed. The model drains at once on a live engine; the broker state is the same, because the new engine holds no queries.
- DeleteContext: returns the new broker only, not the int the library returns (0 for an unknown id or a clean join, -1 when a lock or the join fails).
- IdsNeverReused: holds for an unbounded generator only. `g_ctx_id_generator` is an `atomic_int`, so after 2^31 - 1 creations it wraps and ids can repeat; the model's `nextCtxId` does not wrap.
- Under `AllQueries` (the code as written) the model only logs a callback into a freed query as a `Stale` event. What the caller's callback then does with freed memory, being called a second time, is not modelled further.
- Allocation failures (malloc, strdup) and the leaks on error paths are left out. One is the engine that is not deleted when reading /etc/hosts fails (unbound4j.c:118-121); another is the query struct leaked at lines 312-315.
- `ub4j_init` (unbound4j.c:46-58) only initialises locks, so it is left out.
- libunbound is abstract.
  - `Setup` gives the outcome of each setup call and `Resolve` gives the outcome of `ub_resolve_async`.
  - An engine answers any query it holds, with any code and answer; that is the `Answered` action.
  - Error texts are the reasons they stand for. The text of `ub_strerror` is not modelled.
- The clock is the `now` parameter of each lookup and sweep. `time_t` overflow is not modelled.
- Query ids assigned by different engines could collide; the model keeps them apart by recording the engine with each query.
- The order in which `ub4j_destroy` visits contexts (the hash table's order) is the `order` parameter.
- `Unbound4j.ConfigInit` has no row of its own. Its five-second default is what `Unbound4jProofs.DefaultTimeout` states.
- The negative return of `vsnprintf` (sldns.c:13-15) is left out, because libc gives it only on encoding errors, which "%c", "%03u", "%x" and plain text cannot produce.
- `isprint`, `isgraph` and `isascii` are taken in the C locale: octets from 0x80 up are not printable.
- The JNI layer (unbound4j_jinterface.c, jniutils.c), the Java API and the tests are left out, except as the callers named in the findings.
- The comments at unbound4j.c:283-284 show both reverse names with a trailing dot. The code prints no trailing dot, and the model follows the code.
- The `strdup` copies of the reverse names are left out; the builders return the names directly.

## Findings

| source | as written | input that shows it | evidently intended | confidence | as-written member | corrected member |
|---|---|---|---|---|---|---|
| jni/src/sldns.c:100 | After a compression pointer has been followed, `while(*pos)` reads the next length octet without checking that `pos` is still inside the packet. A label that ends exactly at the packet's end makes it read `pkt[pktlen]`. | A 4-octet packet whose name is a pointer to offset 2, where the label "a" ends the packet. | Stop at the end of the packet, as the loop condition of later Unbound releases does. With that test the name decodes as "a.". | not executed; not reachable through sldns_wire2str_rdata_buf, which passes no packet | Sldns.DnameSpoolAsWritten, SldnsProofs.OverreadWitness | Sldns.DnameSpool, SldnsProofs.AsWrittenAgrees |
| jni/src/unbound4j.c:425-435 | A stopping thread drains the one global query table. It times out and frees every context's queries, and cancels them on its own engine. The sweep at 397-411 does the same for expired queries. | Two contexts, a lookup on the first, then delete the second. The first engine still holds the query and later calls back into the freed struct. | Each thread cancels and times out only the queries its own engine holds. | not executed | Unbound4jProofs.StaleCallbackAsWritten | Unbound4jProofs.NoStaleCallback, Unbound4jProofs.AnsweredOnceFromLoad |
| jni/src/unbound4j.c:224-232 | The hostname buffer comes from malloc(256) and is never cleared. sldns_wire2str_rdata_buf stores single characters directly (sldns.c:77-81) and writes no NUL after them. A name whose text fills exactly the last byte with a plain character is therefore handed to NewStringUTF (unbound4j_jinterface.c:220) without a terminator. | The valid 69-octet name made of a label of 63 zero octets and the label "abc". Its text is 257 characters, and "c" lands in byte 255. | Clear the buffer (calloc) and set `hostname[255] = 0` after the call; both are needed. `hostname[255] = 0` alone still leaves the rdata 3 'a' 'b' (a label cut short) unterminated, and a cleared buffer alone still lets 256 characters fill it. The caller then gets a string of at most 255 characters that begins the name. | not executed | Unbound4j.HostnameAsWritten, CallbackProofs.UnterminatedHostname, CallbackProofs.CutLabelUnterminated | Unbound4j.Hostname, CallbackProofs.ShortNameTerminated |
