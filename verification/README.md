# Entry API client: the entry-request pipeline

A Dafny model of the entry-request pipeline of the SPIRE Entry API Java
client (`DefaultEntryService`). `createEntry` validates an entry definition
(`EntryDef`), builds a single-entry batch-create request from it, hands the
request to the Entry API, and turns the first result of the response into a
`CreateResult`. The exceptions the model covers are `Error` variants of a
`Result`:

- `IllegalArgument` for the two checks of `validateParameters`, with the
  source's messages;
- `InvalidSpiffeId` where `SpiffeId.parse` rejects an ID;
- `StringIndexOutOfBounds` where `substring(0, indexOf(':'))` is called on a
  selector without a colon (the index is -1), carrying the string's length in
  UTF-16 code units as `String.length()` reports it;
- `IndexOutOfBounds` where `getResults(0)` is called on a response with no
  results.

A Java null is `None`. Two collaborators are parameters: `parse`
(`SpiffeId.parse` from java-spiffe, read back as a trust-domain name and a
path, `None` where it throws) and `batchCreateEntry` (the gRPC call, a
function from request to response). Strings are sequences of Unicode scalar
values, and string indexes count those characters rather than UTF-16 code
units. The split indexes come from `indexOf` on the same string, so the type
and value cut out of a selector are the ones Java cuts out; the length in an
error is counted in UTF-16 code units by `Utf16Length`. Java `int` fields are
the `int32` newtype and are only copied. The model follows Java 9 and later in
what counts as whitespace and in what a `StringIndexOutOfBoundsException`
carries.

Files:

- `wrappers.dfy` — `Option`, `Result`, `Outcome`.
- `java_strings.dfy` — `Character.isWhitespace`, `StringUtils.isBlank`,
  `String.indexOf(char)`, `String.substring`.
- `entry_service.dfy` — the records and the operations of `DefaultEntryService`.
- `entry_service_properties.dfy` — lemmas that relate several calls, and a worked
  example.

Three behaviours of `DefaultEntryService` worth noting:

- an empty selector type (`:value`) is accepted; nothing rejects it;
- a blank ID fails with `IllegalArgumentException("spiffeID cannot be empty")`,
  and an ID that does not parse fails separately, inside `buildEntry`;
- the response is read only at index 0: extra results are ignored, and an empty
  response fails with an index error.

## Model

| member | source | states |
|---|---|---|
| `JavaStrings.IndexOf` | src/main/java/io/spiffe/entryapi/DefaultEntryService.java:106 | the result is -1 exactly when the character is absent; otherwise it is an index holding the character with no earlier occurrence |
| `JavaStrings.IsWhitespace` | src/main/java/io/spiffe/entryapi/DefaultEntryService.java:54 | a character is whitespace exactly when it is one of the 25 listed in `JavaWhitespace` (space; HT, LF, VT, FF, CR; FS, GS, RS, US; U+1680; U+2000-U+2006; U+2008-U+200A; U+2028; U+2029; U+205F; U+3000); in particular the non-breaking spaces U+00A0, U+2007, U+202F and U+180E are not |
| `JavaStrings.IsBlank` | src/main/java/io/spiffe/entryapi/DefaultEntryService.java:77 | null and the empty string are blank; a string is not blank exactly when it is present and holds a non-whitespace character |
| `JavaStrings.Utf16Length` | src/main/java/io/spiffe/entryapi/DefaultEntryService.java:106 | the length Java reports lies between the number of characters and twice it, equals the number of characters exactly when none is above U+FFFF, and is 1 or 2 for a single character by whether it is above U+FFFF |
| `JavaStrings.Utf16LengthAppend` | src/main/java/io/spiffe/entryapi/DefaultEntryService.java:106 | the length of a concatenation is the sum of the lengths, so with the single-character case the length is the number of characters plus one per character above U+FFFF |
| `JavaStrings.Substring` | src/main/java/io/spiffe/entryapi/DefaultEntryService.java:106 | `substring(begin, end)` succeeds exactly when `0 <= begin <= end <= n`, n the number of characters (not UTF-16 units), and then returns the `end - begin` characters starting at `begin`, in order |
| `JavaStrings.SubstringFrom` | src/main/java/io/spiffe/entryapi/DefaultEntryService.java:107 | `substring(begin)` succeeds exactly when `0 <= begin <= n`, n the number of characters (not UTF-16 units), and then returns the characters from `begin` to the end, in order |
| `JavaStrings.SubstringRebuildsString` | src/main/java/io/spiffe/entryapi/DefaultEntryService.java:106-107 | the prefix before `begin`, `substring(begin, end)` and `substring(end)` concatenate back to the whole string |
| `EntryService.ValidateParameters` | src/main/java/io/spiffe/entryapi/DefaultEntryService.java:53-61 | passes exactly for well-formed definitions (an ID with a non-whitespace character and a non-empty selector list); a blank or null ID gives the ID error whatever the selectors; the selector error comes only with a non-blank ID and a null or empty list |
| `EntryService.BuildSelector` | src/main/java/io/spiffe/entryapi/DefaultEntryService.java:103-114 | fails exactly when the string has no colon, with the out-of-bounds error for `substring(0, -1)`; on success the type holds no colon and `type + ":" + value` is the input |
| `EntryService.BuildSelectors` | src/main/java/io/spiffe/entryapi/DefaultEntryService.java:96-101 | succeeds exactly when every string has a colon; then the output has the input's length and element i is the selector built from input i; otherwise the error is that of the first string without a colon |
| `EntryService.BuildSpiffeIdField` | src/main/java/io/spiffe/entryapi/DefaultEntryService.java:116-123 | succeeds exactly when the ID parses, giving the parsed trust domain and path; otherwise the error names the ID |
| `EntryService.BuildParentIdField` | src/main/java/io/spiffe/entryapi/DefaultEntryService.java:76-79 | a blank or null parent gives no parent field; a non-blank one gives the parsed field or the parse error for the parent |
| `EntryService.BuildEntry` | src/main/java/io/spiffe/entryapi/DefaultEntryService.java:73-94 | succeeds exactly when the ID parses, the parent is blank or parses, and every selector has a colon; errors come in the order ID, parent, selectors; a built entry holds the parsed ID pair, the parsed parent only for a non-blank parent, the selectors in order with their text preserved, and the lists, flags, TTL and expiry copied unchanged |
| `EntryService.BuildBatchCreateEntryRequest` | src/main/java/io/spiffe/entryapi/DefaultEntryService.java:63-71 | a built request holds exactly one entry, the one `buildEntry` produces; a failed entry is the request's failure |
| `EntryService.GetResults` | src/main/java/io/spiffe/entryapi/DefaultEntryService.java:43 | reading a result succeeds exactly for an index inside the response's result list and returns the result at that index; otherwise it fails with an index error naming the index and the list's size |
| `EntryService.CreateEntry` | src/main/java/io/spiffe/entryapi/DefaultEntryService.java:34-51 | a validation error is returned as is; a build error is returned as is; otherwise an empty response fails with an index error and a non-empty one gives code, message and entry text of its first result; success implies a well-formed definition |
| `EntryServiceProperties.FirstColonAfterType` | src/main/java/io/spiffe/entryapi/DefaultEntryService.java:106 | in `type + ":" + value` with a colon-free type, the first colon is at the type's length |
| `EntryServiceProperties.BuildSelectorInvertsSelectorString` | src/main/java/io/spiffe/entryapi/DefaultEntryService.java:103-107 | building the selector from `type:value` with a colon-free type gives back exactly that type and value |
| `EntryServiceProperties.SplitOnFirstColonExample` | src/main/java/io/spiffe/entryapi/DefaultEntryService.java:105-107 | `unix:uid:1001` gives type `unix` and value `uid:1001` |
| `EntryServiceProperties.EmptySelectorTypeAccepted` | src/main/java/io/spiffe/entryapi/DefaultEntryService.java:106 | a selector starting with a colon is built with an empty type |
| `EntryServiceProperties.MissingColonErrorUsesUtf16Length` | src/main/java/io/spiffe/entryapi/DefaultEntryService.java:106 | a colon-free selector of one character above U+FFFF fails with `substring(0, -1)`'s error reporting length 2 |
| `EntryServiceProperties.BlankIdRejectedFirst` | src/main/java/io/spiffe/entryapi/DefaultEntryService.java:53-56 | a blank or null ID makes `createEntry` fail with the ID error for every selector list, parser and Entry API |
| `EntryServiceProperties.MissingSelectorsRejected` | src/main/java/io/spiffe/entryapi/DefaultEntryService.java:58-60 | a non-blank ID with a null or empty selector list fails with the selector error |
| `EntryServiceProperties.ValidationPrecedesBuildAndSend` | src/main/java/io/spiffe/entryapi/DefaultEntryService.java:35-41 | a definition that fails validation fails, with the same outcome for every parser and every Entry API |
| `EntryServiceProperties.FailedBuildSendsNothing` | src/main/java/io/spiffe/entryapi/DefaultEntryService.java:39-41 | when the request cannot be built, the outcome is the same for every Entry API |
| `EntryServiceProperties.ParseConsultedOnlyOnIds` | src/main/java/io/spiffe/entryapi/DefaultEntryService.java:74-79 | the entry depends on the parser only at the ID and, when the parent is not blank, at the parent |
| `EntryServiceProperties.BlankParentGivesNoParent` | src/main/java/io/spiffe/entryapi/DefaultEntryService.java:76-85 | a blank or null parent gives an entry without a parent |
| `EntryServiceProperties.ResultFromFirstElementOnly` | src/main/java/io/spiffe/entryapi/DefaultEntryService.java:41-50 | two Entry APIs whose responses start with the same result give the same successful outcome |
| `EntryServiceProperties.ExampleRequest` | src/main/java/io/spiffe/entryapi/DefaultEntryService.java:63-93 | the example definition with ID `spiffe://example.org/workload` with selector `unix:uid:1001`, no parent and TTL 3600 gives a one-entry request with the parsed ID, selector (`unix`, `uid:1001`), TTL 3600 and no parent |
| `EntryServiceProperties.EmptyResponseFails` | src/main/java/io/spiffe/entryapi/DefaultEntryService.java:43 | for that definition, a response with no results is an index error, not a default result |

## Left out

- `SslContextBuilder.java`: fetching the X.509 context from the agent socket and building the TLS context is I/O over java-spiffe and Netty classes that are not part of this model.
- `newEntryService` and `createEntryBlockingStub` (`DefaultEntryService.java:29-32`, `:125-135`): channel and stub construction is network plumbing; the call itself is the `batchCreateEntry` parameter.
- `SpiffeId.parse`: java-spiffe is not part of this model; it is the `parse` parameter, with no assumption about which strings it accepts or what path form it returns. The exception it throws is not modelled either: the `InvalidSpiffeId(id)` payload is a label of this model that only tells an ID failure from a parent failure.
- A failed RPC: the blocking stub call at `DefaultEntryService.java:41` throws `StatusRuntimeException` when the call fails; `batchCreateEntry` is a total function that always returns a response, so that failure is not modelled.
- The protobuf builders: what `setParentId(null)`, `addAllDnsNames(null)` and `addAllFederatesWith(null)` do is not visible, so the entry keeps `None` there. The model assumes these builder calls accept null and return normally; if they throw, no entry without a parent (or with a null list) is sent.
- The text rendering of the echoed entry (`getEntry().toString()`): the response already carries that text.
- Java 8 behaviour: there `Character.isWhitespace` also counts U+180E, and `substring(0, -1)` reports only the index -1 rather than begin, end and length; the model follows Java 9 and later.
- String indexes in UTF-16 code units: `IndexOf`, `Substring` and `SubstringFrom` count characters, so they differ from Java on strings with characters above U+FFFF; the selector split does not, since its indexes come from `IndexOf` on the same string.
- Unpaired UTF-16 surrogates: a Java `String` can hold one, a Dafny `string` cannot, so such strings are not modelled.
- Null elements inside the selector, DNS or trust-domain lists: the command line never produces them, and the model's lists hold strings only.
- `CreateEntry.java`: option parsing and printing. Its list options default to empty lists, which the example definition mirrors.
- `EntryAdmin.java`: `main`, exit code and logging configuration.
