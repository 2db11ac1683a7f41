/** Properties of the entry-request pipeline that relate several calls: the
    selector split and its inverse, which inputs the parser and the Entry API
    are consulted on, and a worked example. */
module EntryServiceProperties {
  import opened Wrappers
  import opened JavaStrings
  import opened EntryService

  /** The colon after a colon-free type is the first one in the string. */
  lemma {:induction false} FirstColonAfterType(selectorType: string, value: string)
    requires ':' !in selectorType
    ensures IndexOf(selectorType + ":" + value, ':') == |selectorType|
  {
    var s := selectorType + ":" + value;
    assert s[|selectorType|] == ':';
    assert s[..|selectorType|] == selectorType;
  }

  /** buildSelector inverts the `type:value` text form for every type without
      a colon: the value, colons included, comes back unchanged. */
  lemma {:induction false} BuildSelectorInvertsSelectorString(sel: Selector)
    requires ':' !in sel.selectorType
    ensures BuildSelector(SelectorString(sel)) == Success(sel)
  {
    var s := SelectorString(sel);
    FirstColonAfterType(sel.selectorType, sel.value);
    assert s[..|sel.selectorType|] == sel.selectorType;
    assert s[|sel.selectorType| + 1..] == sel.value;
  }

  /** Splitting happens at the first colon only: `unix:uid:1001` gives type
      `unix` and value `uid:1001`. */
  lemma SplitOnFirstColonExample()
    ensures BuildSelector("unix:uid:1001") == Success(Selector("unix", "uid:1001"))
  {
    BuildSelectorInvertsSelectorString(Selector("unix", "uid:1001"));
    assert SelectorString(Selector("unix", "uid:1001")) == "unix:uid:1001";
  }

  /** A selector starting with a colon yields an empty type, and nothing
      rejects it. */
  lemma EmptySelectorTypeAccepted(value: string)
    ensures BuildSelector(":" + value) == Success(Selector("", value))
  {
    BuildSelectorInvertsSelectorString(Selector("", value));
    assert SelectorString(Selector("", value)) == ":" + value;
  }

  /** The error for a selector without a colon reports the length Java
      reports: a character above U+FFFF counts twice. */
  lemma MissingColonErrorUsesUtf16Length()
    ensures BuildSelector("\U{1F600}") == Failure(StringIndexOutOfBounds(0, -1, 2))
  {
    assert Utf16Length("\U{1F600}") == 2 + Utf16Length("");
  }

  /** A blank ID is reported before anything else, whatever the selectors are,
      and the parser and the Entry API are never consulted. */
  lemma BlankIdRejectedFirst(def: EntryDef, parse: SpiffeIdParser, batchCreateEntry: BatchCreateEntry)
    requires IsBlank(def.spiffeId)
    ensures CreateEntry(def, parse, batchCreateEntry) == Failure(IllegalArgument(SpiffeIdEmptyMessage))
  {
  }

  /** A present ID with a null or empty selector list is rejected with the
      selector message, before any parsing or sending. */
  lemma MissingSelectorsRejected(def: EntryDef, parse: SpiffeIdParser, batchCreateEntry: BatchCreateEntry)
    requires !IsBlank(def.spiffeId)
    requires def.selectors.None? || def.selectors.value == []
    ensures CreateEntry(def, parse, batchCreateEntry) == Failure(IllegalArgument(SelectorRequiredMessage))
  {
  }

  /** A definition that fails validation gives the same outcome for every
      parser and every Entry API: validation runs before anything is built or
      sent. */
  lemma ValidationPrecedesBuildAndSend(def: EntryDef, parse1: SpiffeIdParser, parse2: SpiffeIdParser,
                                       send1: BatchCreateEntry, send2: BatchCreateEntry)
    requires !WellFormed(def)
    ensures CreateEntry(def, parse1, send1) == CreateEntry(def, parse2, send2)
    ensures CreateEntry(def, parse1, send1).Failure?
  {
  }

  /** A definition whose request cannot be built fails the same way for every
      Entry API: no request is sent. */
  lemma FailedBuildSendsNothing(def: EntryDef, parse: SpiffeIdParser, send1: BatchCreateEntry, send2: BatchCreateEntry)
    requires ValidateParameters(def).Pass?
    requires BuildBatchCreateEntryRequest(def, parse).Failure?
    ensures CreateEntry(def, parse, send1) == CreateEntry(def, parse, send2)
  {
  }

  /** The parser is consulted on the ID, and on the parent only when the
      parent is not blank: two parsers that agree there build the same entry. */
  lemma ParseConsultedOnlyOnIds(def: EntryDef, parse1: SpiffeIdParser, parse2: SpiffeIdParser)
    requires ValidateParameters(def).Pass?
    requires parse1(def.spiffeId.value) == parse2(def.spiffeId.value)
    requires !IsBlank(def.parentId) ==> parse1(def.parentId.value) == parse2(def.parentId.value)
    ensures BuildEntry(def, parse1) == BuildEntry(def, parse2)
  {
  }

  /** A blank or null parent gives an entry without a parent. */
  lemma BlankParentGivesNoParent(def: EntryDef, parse: SpiffeIdParser)
    requires ValidateParameters(def).Pass?
    requires IsBlank(def.parentId)
    ensures BuildEntry(def, parse).Success? ==> BuildEntry(def, parse).value.parentId == None
  {
  }

  /** Only the first result of the response matters: two Entry APIs whose
      responses start with the same result give the same outcome, and any
      further results are ignored. */
  lemma ResultFromFirstElementOnly(def: EntryDef, parse: SpiffeIdParser, send1: BatchCreateEntry, send2: BatchCreateEntry)
    requires ValidateParameters(def).Pass?
    requires BuildBatchCreateEntryRequest(def, parse).Success?
    requires var request := BuildBatchCreateEntryRequest(def, parse).value;
             send1(request).results != [] && send2(request).results != [] &&
             send1(request).results[0] == send2(request).results[0]
    ensures CreateEntry(def, parse, send1) == CreateEntry(def, parse, send2)
    ensures CreateEntry(def, parse, send1).Success?
  {
  }

  /** An example definition: one ID, one selector, no parent, TTL 3600, and
      empty lists as the command line supplies them. */
  function ExampleDef(): EntryDef {
    EntryDef(
      admin := false,
      dns := Some([]),
      downstream := false,
      entryExpiry := 0,
      federatedTrustDomains := Some([]),
      parentId := None,
      selectors := Some(["unix:uid:1001"]),
      spiffeId := Some("spiffe://example.org/workload"),
      ttl := 3600)
  }

  /** The request built for the example definition holds one entry whose ID is the
      parsed pair, with selector (unix, uid:1001), TTL 3600 and no parent. */
  lemma ExampleRequest(parse: SpiffeIdParser, id: SpiffeIdField)
    requires parse("spiffe://example.org/workload") == Some(id)
    ensures ValidateParameters(ExampleDef()).Pass?
    ensures BuildBatchCreateEntryRequest(ExampleDef(), parse) ==
              Success(BatchCreateEntryRequest([Entry(
                spiffeId := id,
                parentId := None,
                federatesWith := Some([]),
                dnsNames := Some([]),
                selectors := [Selector("unix", "uid:1001")],
                admin := false,
                ttl := 3600,
                expiresAt := 0,
                downstream := false)]))
  {
    var def := ExampleDef();
    assert def.spiffeId.value[0] == 's' && !IsWhitespace('s');
    assert WellFormed(def);
    var selectors := def.selectors.value;
    assert selectors[0][4] == ':';
    assert forall i :: 0 <= i < |selectors| ==> ':' in selectors[i];
    assert IsBlank(def.parentId);
    var entry := BuildEntry(def, parse).value;
    BuildSelectorInvertsSelectorString(entry.selectors[0]);
    SplitOnFirstColonExample();
    assert entry.selectors == [Selector("unix", "uid:1001")];
  }

  /** A response with no results is an error rather than a default result. */
  lemma EmptyResponseFails(parse: SpiffeIdParser, id: SpiffeIdField, batchCreateEntry: BatchCreateEntry)
    requires parse("spiffe://example.org/workload") == Some(id)
    requires forall request :: batchCreateEntry(request).results == []
    ensures CreateEntry(ExampleDef(), parse, batchCreateEntry) == Failure(IndexOutOfBounds(0, 0))
  {
    ExampleRequest(parse, id);
  }
}
