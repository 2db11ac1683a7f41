/** The entry-request pipeline of DefaultEntryService: validate an entry
    definition, turn it into a single-entry batch-create request, hand the
    request to the Entry API, and read the first result of the response.

    Two collaborators are parameters rather than code: `parse` stands for
    SpiffeId.parse of the java-spiffe library (None where it throws), and
    `batchCreateEntry` stands for the gRPC BatchCreateEntry call. */
module EntryService {
  import opened Wrappers
  import opened JavaStrings

  /** A Java `int`. The pipeline only copies such values. */
  newtype int32 = x: int | -0x8000_0000 <= x < 0x8000_0000

  /** The operator's input, EntryDef. A Java null is None. */
  datatype EntryDef = EntryDef(
    admin: bool,
    dns: Option<seq<string>>,
    downstream: bool,
    entryExpiry: int32,
    federatedTrustDomains: Option<seq<string>>,
    parentId: Option<string>,
    selectors: Option<seq<string>>,
    spiffeId: Option<string>,
    ttl: int32)

  /** A registration selector, the pair written `type:value` on input. */
  datatype Selector = Selector(selectorType: string, value: string)

  /** The wire form of a SPIFFE ID: its trust-domain name and its path. */
  datatype SpiffeIdField = SpiffeIdField(trustDomain: string, path: string)

  /** SpiffeId.parse, read back as (trust-domain name, path); None where it throws. */
  type SpiffeIdParser = string -> Option<SpiffeIdField>

  /** The registration entry placed in the request. `parentId` is None where
      the builder is handed null, and so are the two lists when the definition
      holds null for them; what the protobuf builder does with a null is not
      part of this model. */
  datatype Entry = Entry(
    spiffeId: SpiffeIdField,
    parentId: Option<SpiffeIdField>,
    federatesWith: Option<seq<string>>,
    dnsNames: Option<seq<string>>,
    selectors: seq<Selector>,
    admin: bool,
    ttl: int32,
    expiresAt: int32,
    downstream: bool)

  datatype BatchCreateEntryRequest = BatchCreateEntryRequest(entries: seq<Entry>)

  /** One result of the response: its status and the echoed entry, already
      rendered as text (the entry's toString()). */
  datatype Status = Status(code: int32, message: string)
  datatype EntryResult = EntryResult(status: Status, entry: string)
  datatype BatchCreateEntryResponse = BatchCreateEntryResponse(results: seq<EntryResult>)

  /** The gRPC BatchCreateEntry call. */
  type BatchCreateEntry = BatchCreateEntryRequest -> BatchCreateEntryResponse

  /** What createEntry returns to its caller. */
  datatype CreateResult = CreateResult(code: int32, message: string, entry: string)

  /** The exceptions the pipeline can throw. */
  datatype Error =
    | IllegalArgument(message: string)                        // validateParameters
    | InvalidSpiffeId(id: string)                             // SpiffeId.parse
    | StringIndexOutOfBounds(begin: int, end: int, length: int) // String.substring
    | IndexOutOfBounds(index: int, size: int)                 // getResults

  const SpiffeIdEmptyMessage: string := "spiffeID cannot be empty"
  const SelectorRequiredMessage: string := "at least one selector is required"

  /** The definitions validateParameters lets through: an ID with at least one
      non-whitespace character and a selector list with at least one element. */
  predicate WellFormed(def: EntryDef) {
    && def.spiffeId.Some?
    && (exists i :: 0 <= i < |def.spiffeId.value| && !IsWhitespace(def.spiffeId.value[i]))
    && def.selectors.Some?
    && def.selectors.value != []
  }

  /** The text form `type:value` of a selector. */
  function SelectorString(s: Selector): string {
    s.selectorType + ":" + s.value
  }

  /** validateParameters: the ID check comes first, then the selector check. */
  function ValidateParameters(def: EntryDef): (r: Outcome<Error>)
    ensures r.Pass? <==> WellFormed(def)
    ensures IsBlank(def.spiffeId) <==> r == Fail(IllegalArgument(SpiffeIdEmptyMessage))
    ensures r == Fail(IllegalArgument(SelectorRequiredMessage)) <==>
              !IsBlank(def.spiffeId) && (def.selectors.None? || def.selectors.value == [])
  {
    if IsBlank(def.spiffeId) then
      Fail(IllegalArgument(SpiffeIdEmptyMessage))
    else if def.selectors.None? || |def.selectors.value| == 0 then
      Fail(IllegalArgument(SelectorRequiredMessage))
    else
      Pass
  }

  /** buildSelector: the type is the text before the first colon and the value
      the text after it. Without a colon indexOf gives -1 and substring(0, -1)
      throws. An empty type (a selector starting with a colon) is accepted. */
  function BuildSelector(selector: string): (r: Result<Selector, Error>)
    ensures r.Failure? <==> ':' !in selector
    ensures r.Failure? ==> r.error == StringIndexOutOfBounds(0, -1, Utf16Length(selector))
    ensures r.Success? ==> ':' !in r.value.selectorType && SelectorString(r.value) == selector
  {
    var colon := IndexOf(selector, ':');
    match Substring(selector, 0, colon)
    case None => Failure(StringIndexOutOfBounds(0, colon, Utf16Length(selector)))
    case Some(selectorType) =>
      match SubstringFrom(selector, colon + 1)
      // Unreachable: once a colon has been found, the index after it is in range.
      case None => Failure(StringIndexOutOfBounds(colon + 1, Utf16Length(selector), Utf16Length(selector)))
      case Some(value) =>
        assert selector == selector[..colon] + [':'] + selector[colon + 1..];
        Success(Selector(selectorType, value))
  }

  /** buildSelectors: buildSelector over the list, in order; the first selector
      that cannot be built stops the conversion with its exception. */
  function BuildSelectors(selectors: seq<string>): (r: Result<seq<Selector>, Error>)
    ensures r.Success? <==> forall i :: 0 <= i < |selectors| ==> ':' in selectors[i]
    ensures r.Success? ==>
              && |r.value| == |selectors|
              && forall i :: 0 <= i < |selectors| ==> BuildSelector(selectors[i]) == Success(r.value[i])
    ensures r.Failure? ==>
              exists k :: && 0 <= k < |selectors|
                          && ':' !in selectors[k]
                          && (forall j :: 0 <= j < k ==> ':' in selectors[j])
                          && r.error == BuildSelector(selectors[k]).error
  {
    if |selectors| == 0 then Success([])
    else
      var head :- BuildSelector(selectors[0]);
      var tail :- BuildSelectors(selectors[1..]);
      Success([head] + tail)
  }

  /** buildSpiffeIdField: parse the ID and keep its trust-domain name and path. */
  function BuildSpiffeIdField(id: string, parse: SpiffeIdParser): (r: Result<SpiffeIdField, Error>)
    ensures r.Success? <==> parse(id).Some?
    ensures r.Success? ==> parse(id) == Some(r.value)
    ensures r.Failure? ==> r.error == InvalidSpiffeId(id)
  {
    match parse(id)
    case None => Failure(InvalidSpiffeId(id))
    case Some(field) => Success(field)
  }

  /** The parent part of buildEntry: parsed only when the parent ID is not blank. */
  function BuildParentIdField(parentId: Option<string>, parse: SpiffeIdParser): (r: Result<Option<SpiffeIdField>, Error>)
    ensures IsBlank(parentId) ==> r == Success(None)
    ensures !IsBlank(parentId) ==>
              && (r.Success? <==> parse(parentId.value).Some?)
              && (r.Success? ==> r.value == parse(parentId.value))
              && (r.Failure? ==> r.error == InvalidSpiffeId(parentId.value))
  {
    if IsBlank(parentId) then Success(None)
    else
      var field :- BuildSpiffeIdField(parentId.value, parse);
      Success(Some(field))
  }

  /** buildEntry. Its only caller runs it after validateParameters has passed;
      the ID is parsed first, then the parent, then the selectors converted. */
  function BuildEntry(def: EntryDef, parse: SpiffeIdParser): (r: Result<Entry, Error>)
    requires ValidateParameters(def).Pass?
    ensures r.Success? <==>
              && parse(def.spiffeId.value).Some?
              && (IsBlank(def.parentId) || parse(def.parentId.value).Some?)
              && forall i :: 0 <= i < |def.selectors.value| ==> ':' in def.selectors.value[i]
    ensures parse(def.spiffeId.value).None? ==> r == Failure(InvalidSpiffeId(def.spiffeId.value))
    ensures parse(def.spiffeId.value).Some? && !IsBlank(def.parentId) && parse(def.parentId.value).None? ==>
              r == Failure(InvalidSpiffeId(def.parentId.value))
    ensures parse(def.spiffeId.value).Some? && (IsBlank(def.parentId) || parse(def.parentId.value).Some?) &&
            BuildSelectors(def.selectors.value).Failure? ==>
              r == Failure(BuildSelectors(def.selectors.value).error)
    ensures r.Success? ==>
              && r.value.spiffeId == parse(def.spiffeId.value).value
              && r.value.parentId == (if IsBlank(def.parentId) then None else parse(def.parentId.value))
              && |r.value.selectors| == |def.selectors.value|
              && (forall i :: 0 <= i < |def.selectors.value| ==>
                    SelectorString(r.value.selectors[i]) == def.selectors.value[i] &&
                    ':' !in r.value.selectors[i].selectorType)
              && r.value.federatesWith == def.federatedTrustDomains
              && r.value.dnsNames == def.dns
              && r.value.admin == def.admin
              && r.value.ttl == def.ttl
              && r.value.expiresAt == def.entryExpiry
              && r.value.downstream == def.downstream
  {
    var spiffeIdField :- BuildSpiffeIdField(def.spiffeId.value, parse);
    var parentIdField :- BuildParentIdField(def.parentId, parse);
    var selectorsField :- BuildSelectors(def.selectors.value);
    Success(Entry(
      spiffeId := spiffeIdField,
      parentId := parentIdField,
      federatesWith := def.federatedTrustDomains,
      dnsNames := def.dns,
      selectors := selectorsField,
      admin := def.admin,
      ttl := def.ttl,
      expiresAt := def.entryExpiry,
      downstream := def.downstream))
  }

  /** buildBatchCreateEntryRequest: a request holding exactly the one built entry. */
  function BuildBatchCreateEntryRequest(def: EntryDef, parse: SpiffeIdParser): (r: Result<BatchCreateEntryRequest, Error>)
    requires ValidateParameters(def).Pass?
    ensures r.Success? <==> BuildEntry(def, parse).Success?
    ensures r.Success? ==> |r.value.entries| == 1 && Success(r.value.entries[0]) == BuildEntry(def, parse)
    ensures r.Failure? ==> r.error == BuildEntry(def, parse).error
  {
    var entry :- BuildEntry(def, parse);
    Success(BatchCreateEntryRequest([entry]))
  }

  /** getResults(index) on the response's repeated field. */
  function GetResults(response: BatchCreateEntryResponse, index: int): (r: Result<EntryResult, Error>)
    ensures r.Success? <==> 0 <= index < |response.results|
    ensures r.Success? ==> r.value == response.results[index]
    ensures r.Failure? ==> r.error == IndexOutOfBounds(index, |response.results|)
  {
    if 0 <= index < |response.results| then Success(response.results[index])
    else Failure(IndexOutOfBounds(index, |response.results|))
  }

  /** createEntry: validate, build, send, and read the first result. */
  function CreateEntry(def: EntryDef, parse: SpiffeIdParser, batchCreateEntry: BatchCreateEntry): (r: Result<CreateResult, Error>)
    ensures ValidateParameters(def).Fail? ==> r == Failure(ValidateParameters(def).error)
    ensures ValidateParameters(def).Pass? && BuildBatchCreateEntryRequest(def, parse).Failure? ==>
              r == Failure(BuildEntry(def, parse).error)
    ensures ValidateParameters(def).Pass? && BuildBatchCreateEntryRequest(def, parse).Success? ==>
              var results := batchCreateEntry(BuildBatchCreateEntryRequest(def, parse).value).results;
              && (results == [] ==> r == Failure(IndexOutOfBounds(0, 0)))
              && (results != [] ==>
                    r == Success(CreateResult(results[0].status.code, results[0].status.message, results[0].entry)))
    ensures r.Success? ==> WellFormed(def)
  {
    match ValidateParameters(def)
    case Fail(e) => Failure(e)
    case Pass =>
      var request :- BuildBatchCreateEntryRequest(def, parse);
      var response := batchCreateEntry(request);
      var result :- GetResults(response, 0);
      Success(CreateResult(
        code := result.status.code,
        message := result.status.message,
        entry := result.entry))
  }
}
