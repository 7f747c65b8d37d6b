# VLV index search strategy — a Dafny model

This project models the paging engine of the LDAP connector's
`VlvIndexSearchStrategy`. The engine reads an unbounded result set from a
directory server in blocks. Each block is one search carrying two critical
controls: a server-side sort on one attribute, and a virtual-list-view (VLV)
request in offset form. The engine:

- keeps a cursor (`index`, `lastListSize`, `cookie`) that is reset for each
  base DN;
- buffers every page before handing it to the results handler, so that a
  failing response control never lets an entry of that page through;
- drops the first entry of a page when it repeats the last entry of the
  previous page (the overlap guard);
- ends a base DN's pass once `index` passes the reported content count, or
  on an empty page;
- searches the base DNs in order on one cloned context, which is closed on
  every path.

The project has seven modules.

- `Wrappers` (`wrappers.dfy`): the `Option` and `Result` types.
- `Controls` (`controls.dfy`): the request and response controls, the
  sort-attribute default, Java's `(int)` narrowing, and response-control
  processing as a fold over the controls (`Process`).
- `Paging` (`paging.dfy`): the engine as pure functions.
  - `PageStep` is one page, split into `Received` and `Handed`.
  - `Loop` and `RunFrom` are a base DN's page loop, and `SearchBase` is that
    loop from the reset cursor.
  - `Coordinate` and `RunAll` are the multi-base loop.
- `StepLaws` and `LoopLaws` (`step_laws.dfy`, `loop_laws.dfy`): laws that
  one page step obeys, and what any page loop or multi-base loop built on
  such a step guarantees.
- `PagingProperties` (`paging_properties.dfy`): the guarantees stated for
  the engine itself, including its run against a conformant server.
- `Strategy` (`strategy.dfy`): the imperative code.
  - The class `VlvIndexSearchStrategy` has the Java fields, and its methods
    follow `doSearch`, `searchBaseDN` and `processResponseControls` step by
    step.
  - The classes `LdapContext` and `Consumer` stand for the directory
    context and the results handler.
  - Each method is proved against the `Paging` functions. For example,
    `DoSearch` ends in exactly the state `RunAll` describes.

The model abstracts the server and the handler as follows.

- **The server** is a finite trace of replies, consumed one per search
  across all base DNs.
  - A reply is either a page (the streamed entries and the decoded response
    controls) or a broken search.
  - When the trace is exhausted, the next search fails.
- **The handler** is a function from the number of earlier calls and the
  call's (base DN, entry) to "go on".
- Neither depends on the request sent. Any single run of the real system
  fixes both, so every run is covered by some choice of trace and function.

In three places the code does something other than what one might expect
from the protocol alone; the model follows the code.

- **A list-view value that cannot be decoded to the end.**
  One might expect the previous paging state to be kept. In the code,
  `lastListSize` is assigned (`VlvIndexSearchStrategy.java:194`) before the
  result code and the cookie are read.
  - A value that breaks off after the content count still updates
    `lastListSize`.
  - A value whose result code was read but whose cookie could not be read
    never has that code checked (`:197-206`).
  - `VlvResponse` has one variant for each point where reading can stop.
- **The number of searches.** One might expect a result set of N entries
  to take ceil(N / blockSize) searches. The code always sends at
  least one search per base DN, even when there are no entries.
  `ConformantRunSends` states the count as the code has it: one search
  when nothing is left.
- **The overlap check.** One might expect it to run over the buffered page.
  The code checks while streaming, and compares only the first streamed
  entry (`:128-135`). The result is the same.

## Model

| member | source | states |
|---|---|---|
| Controls.SortAttribute | src/main/java/org/identityconnectors/ldap/search/VlvIndexSearchStrategy.java:74-75 | The sort attribute is the configured one when that is not blank, and `uid` when it is null or only characters up to U+0020; it is never blank. |
| Strategy.VlvIndexSearchStrategy.constructor | src/main/java/org/identityconnectors/ldap/search/VlvIndexSearchStrategy.java:74-77 | `vlvIndexAttr` is the sort-attribute default applied to the configured attribute; `blockSize` is kept as given. |
| Controls.ToInt32 | src/main/java/org/identityconnectors/ldap/search/VlvIndexSearchStrategy.java:193-194 | The `(int)` cast of the reader's `long`: the result is a 32-bit value congruent to the input modulo 2^32, and equal to the input when that already fits. |
| Controls.ProcessOne | src/main/java/org/identityconnectors/ldap/search/VlvIndexSearchStrategy.java:180-206 | One response control raises an error exactly when it is a sort response that is unsorted or has a non-zero code, or a fully read list-view response with a non-zero code; `lastListSize` becomes the count the control reports, and `cookie` the cookie it carries, each unchanged when the control gives none. |
| Controls.ProcessFailsIff | src/main/java/org/identityconnectors/ldap/search/VlvIndexSearchStrategy.java:177-211 | Processing the response controls fails exactly when some control rejects, and then with the error of the first one that rejects. |
| Controls.ProcessSucceeds | src/main/java/org/identityconnectors/ldap/search/VlvIndexSearchStrategy.java:186-206 | When no control rejects, `lastListSize` ends at the last content count reported and `cookie` at the last cookie received, each unchanged when none was. |
| Strategy.VlvIndexSearchStrategy.ProcessResponseControls | src/main/java/org/identityconnectors/ldap/search/VlvIndexSearchStrategy.java:177-211 | The loop over the controls leaves `lastListSize`, `cookie` and the error exactly as the fold `Process` over the old fields says, keeping updates made before a throw; `index` is untouched. |
| Paging.Buffered | src/main/java/org/identityconnectors/ldap/search/VlvIndexSearchStrategy.java:125-140 | The overlap guard drops the first streamed entry exactly when a pending name is set and the entry has that name, and keeps every other entry. |
| Strategy.VlvIndexSearchStrategy.BufferPage | src/main/java/org/identityconnectors/ldap/search/VlvIndexSearchStrategy.java:121-140 | The buffering loop yields the guarded page `Buffered`, and clears the pending name once an entry has been read. |
| Paging.Dispatch | src/main/java/org/identityconnectors/ldap/search/VlvIndexSearchStrategy.java:147-155 | Dispatch hands over at most the buffered entries, all of them unless the handler stopped, and stops only after handing over at least one. |
| StepLaws.DispatchAsksInOrder | src/main/java/org/identityconnectors/ldap/search/VlvIndexSearchStrategy.java:149-154 | The handler is asked about the buffered entries in order; every answer but the last was "go on", and the last was "stop" exactly when dispatch reports a stop. |
| Strategy.VlvIndexSearchStrategy.DispatchPage | src/main/java/org/identityconnectors/ldap/search/VlvIndexSearchStrategy.java:147-155 | The dispatch loop makes exactly the handler calls `Dispatch` describes, moves `index` by their number, reports whether the handler went on, and when it did, returns the last entry handed over. |
| Strategy.VlvIndexSearchStrategy.HandPage | src/main/java/org/identityconnectors/ldap/search/VlvIndexSearchStrategy.java:147-172 | Handing a buffered page over and deciding what comes next leaves the cursor, the pending name, the handler's calls and the outcome exactly as `Handed` says. |
| Strategy.VlvIndexSearchStrategy.ReceivePage | src/main/java/org/identityconnectors/ldap/search/VlvIndexSearchStrategy.java:121-172 | Buffering, response processing and hand-over of an answered search match `Received`; a failing control ends the page before any handler call. |
| Strategy.VlvIndexSearchStrategy.SearchPage | src/main/java/org/identityconnectors/ldap/search/VlvIndexSearchStrategy.java:105-172 | One turn of the page loop sends the sort and offset controls built from the cursor, consumes one reply, and ends in the state of the engine's page step for that reply; a failed search changes no cursor field. |
| StepLaws.PageStepCountsIndex | src/main/java/org/identityconnectors/ldap/search/VlvIndexSearchStrategy.java:149-151 | One page moves `index` by exactly the number of entries handed to the handler. |
| StepLaws.PageStepNextPage | src/main/java/org/identityconnectors/ldap/search/VlvIndexSearchStrategy.java:160-172 | Another page is asked for only after a page that handed over something and left `index` within the content count, which is the last one the server reported. |
| StepLaws.PageStepStopsAfterEntry | src/main/java/org/identityconnectors/ldap/search/VlvIndexSearchStrategy.java:152-154 | A page ends as stopped only after handing over at least one entry. |
| StepLaws.PageStepAsksInOrder | src/main/java/org/identityconnectors/ldap/search/VlvIndexSearchStrategy.java:147-155 | Every entry a page hands over was answered "go on", except the last one exactly when the page ended as stopped. |
| StepLaws.PageStepFailsSilently | src/main/java/org/identityconnectors/ldap/search/VlvIndexSearchStrategy.java:116-145 | A page fails exactly when its search broke or one of its response controls rejects (an unsorted or non-zero sort result, or a fully read list-view result with a non-zero code), and a page that fails hands nothing to the handler. |
| StepLaws.PageStepDelivers | src/main/java/org/identityconnectors/ldap/search/VlvIndexSearchStrategy.java:125-155 | The entries a page hands over are a prefix of the guarded buffer. |
| StepLaws.PageStepRemembersLast | src/main/java/org/identityconnectors/ldap/search/VlvIndexSearchStrategy.java:156-158 | A page that asks for another remembers the name of the last entry it handed over. |
| StepLaws.AcceptedPageAsksInOrder | src/main/java/org/identityconnectors/ldap/search/VlvIndexSearchStrategy.java:145-155 | On a page whose controls all pass, the handler answered "go on" to every entry handed over but the last, which it refused exactly when the page stopped. |
| StepLaws.PageStepAccepted | src/main/java/org/identityconnectors/ldap/search/VlvIndexSearchStrategy.java:125-172 | On a page whose controls pass and whose entries the handler accepts: the whole buffer is handed over, the cursor takes the decoded count and cookie with `index` moved past the buffer, and the loop goes on exactly when the page was not empty and `index` has not passed the count. |
| PagingProperties.IndexCountsDeliveries | src/main/java/org/identityconnectors/ldap/search/VlvIndexSearchStrategy.java:99-155 | Over a whole pass, `index` ends at the starting `index` plus the number of handler calls. |
| PagingProperties.RequestsShape | src/main/java/org/identityconnectors/ldap/search/VlvIndexSearchStrategy.java:105-114 | Every search of a pass names the base DN and carries the critical sort on the configured attribute and a critical offset request with before-count 0 and after-count `blockSize - 1`; the first one is built from the starting cursor, and targets strictly increase up to the final `index`. |
| PagingProperties.PassStartsReset | src/main/java/org/identityconnectors/ldap/search/VlvIndexSearchStrategy.java:99-110 | The first search for a base DN targets position 1 with content count 0 and an empty cookie. |
| PagingProperties.ConsumerStopHonoured | src/main/java/org/identityconnectors/ldap/search/VlvIndexSearchStrategy.java:149-155 | Over a whole pass, the handler is asked once per entry handed over, and every answer was "go on" except the last exactly when the pass ended because the handler stopped. |
| PagingProperties.StopEndsPass | src/main/java/org/identityconnectors/ldap/search/VlvIndexSearchStrategy.java:147-155 | A handler's "stop" ends the pass at once: the search whose page was stopped is the last one sent, its reply the last one read, and the same pass cut off before that reply runs out of replies having handed over a strict prefix of the stopped pass's entries. |
| PagingProperties.ConstantCountBoundsPages | src/main/java/org/identityconnectors/ldap/search/VlvIndexSearchStrategy.java:160-162 | Against a server that always reports content count N, a pass from `index` sends at most max(N - index + 1, 1) searches. |
| PagingProperties.SearchBaseBoundedByCount | src/main/java/org/identityconnectors/ldap/search/VlvIndexSearchStrategy.java:99-172 | From the reset cursor, a constant reported count N allows at most max(N, 1) searches per base DN. |
| PagingProperties.RejectedPageAborts | src/main/java/org/identityconnectors/ldap/search/VlvIndexSearchStrategy.java:145-155 | A page with a rejecting response control ends the pass as a failure after its one search, hands nothing to the handler, and leaves the later replies unread. |
| PagingProperties.NoCountSinglePage | src/main/java/org/identityconnectors/ldap/search/VlvIndexSearchStrategy.java:160-162 | A first page that reports no content count of at least 1, including one with no list-view response at all, ends the pass after one search. |
| PagingProperties.BaseDNsInOrder | src/main/java/org/identityconnectors/ldap/search/VlvIndexSearchStrategy.java:83-90 | Base DNs are entered in order while the previous one finished; a failed or stopped pass ends the search, which is then exactly the search over the base DNs up to that one, all of which before it finished cleanly; otherwise every base DN is entered, and a stopped search has no error. |
| PagingProperties.RunStopsOnRefusal | src/main/java/org/identityconnectors/ldap/search/VlvIndexSearchStrategy.java:88-89 | A search the handler stopped ends with the handler call that answered "stop". |
| PagingProperties.SearchesStayInEnteredBases | src/main/java/org/identityconnectors/ldap/search/VlvIndexSearchStrategy.java:88-89 | No search names a base DN beyond the last one entered. |
| PagingProperties.ConformantRunDelivers | src/main/java/org/identityconnectors/ldap/search/VlvIndexSearchStrategy.java:105-172 | Against a server that answers each offset with the next block and the true count, a handler that never stops receives every entry once, in order, and the pass finishes without error having used every reply. |
| PagingProperties.ConformantRunSends | src/main/java/org/identityconnectors/ldap/search/VlvIndexSearchStrategy.java:108-110 | Against that server, a pass sends ceil(entries left / blockSize) searches (one when none is left), the k-th at target start + k * blockSize. |
| PagingProperties.TwentyFiveInBlocksOfTen | src/main/java/org/identityconnectors/ldap/search/VlvIndexSearchStrategy.java:105-172 | 25 entries in blocks of 10 take three searches at positions 1, 11 and 21, and the handler receives all 25 in order. |
| Strategy.VlvIndexSearchStrategy.SearchBaseDN | src/main/java/org/identityconnectors/ldap/search/VlvIndexSearchStrategy.java:96-175 | Searching one base DN resets the cursor, returns go-on, stop or the failure, and leaves the searches sent, the handler's calls, the cursor and the unread replies exactly as the pass `SearchBase` says. |
| Strategy.VlvIndexSearchStrategy.PageLoop | src/main/java/org/identityconnectors/ldap/search/VlvIndexSearchStrategy.java:105-174 | The page loop from the current cursor ends in the state of the engine's page loop from that cursor. |
| Strategy.VlvIndexSearchStrategy.DoSearch | src/main/java/org/identityconnectors/ldap/search/VlvIndexSearchStrategy.java:80-94 | The whole search runs on a fresh context cloned from the given one, which is closed on every path; the error, the handler's calls, the cursor, the searches sent and the unread replies are exactly those of `RunAll`. |
| Strategy.VlvIndexSearchStrategy.SearchBaseDNs | src/main/java/org/identityconnectors/ldap/search/VlvIndexSearchStrategy.java:83-90 | The loop over the base DNs searches them in order while the previous one asked to go on, and a failure ends it. |

## Left out

- Logging (`getLog`, `setLog`, `:63-72` and the log calls) and `searchControlsToString` have no effect on the paging and are not modelled.
- The filter string and the `SearchControls` argument are passed to the directory unchanged, so the model leaves them out.
- JNDI is not part of this model. The context is the class `LdapContext` over a finite reply trace. `newInstance(null)`, `setRequestControls`, `search`, `getResponseControls` and `close` become methods with contracts.
- A search or entry stream that throws `NamingException` or `IOException` is a `Broken` reply, and the exception becomes a `Failure` value. A stream that fails after some entries is the same as one that fails at once, because the page is buffered and none of its entries reach the handler.
- `NamingEnumeration.close()` is not modelled.
- The BER encoding of the controls is not modelled. Response controls arrive decoded, with one `VlvResponse` variant for each point where the ASN.1 reader can give up.
- The control's OID is matched without regard to case; the decoded variant `VlvResult` stands for that match.
- The contents of `SortResponseControl.getException()` are not modelled; the error carries only the sort result code.
- A `null` array of response controls is modelled as an empty sequence. The `null` initial cookie is modelled as an empty one, since it is only read after the reset at `:101`.
- `StringUtil.isNotBlank` is not part of this model. Blankness is taken as null or nothing left after `String.trim()`, which removes characters up to U+0020.
- Strategy.VlvIndexSearchStrategy.DispatchPage: `index` is an unbounded integer, so the 32-bit wrap-around of `index++` past 2^31 - 1 is not modelled. `lastListSize` does go through the `(int)` narrowing.
- Strategy.VlvIndexSearchStrategy.constructor: the block size is taken as given, and the model assumes the configuration supplies a positive one. With a negative block size, `new ArrayList<SearchResult>(blockSize)` (`:121`) throws `IllegalArgumentException` after the request controls are set and before the search is sent; the model instead records the search with after-count `blockSize - 1` and reads its reply. Whether the control library rejects a negative after-count is not part of this model either.
- Strategy.Consumer.Handle: a handler that throws is not modelled; the handler only answers go-on or stop.
- Concurrency: the `synchronized` log accessors are not modelled, and the strategy is used by one thread.
