/** The graph's state channels, their reducers, and the shape of a node's
    result (apps/agents/src/open-canvas/state.ts). */
module State {
  import opened Wrappers
  import opened Messages
  import opened Artifacts

  /** The `additional_kwargs` key that marks a summary message. Its concrete
      value lives in a shared constants file; only its identity matters here. */
  const SummarizedMessageKey: string := "__oc_summarized_message"

  /** The summary flag is strictly `true` inside `holder`. */
  predicate FlagSet(holder: Value) {
    Get(holder, SummarizedMessageKey) == Bool(true)
  }

  /** `isSummaryMessage(msg)`, written as the chain of early returns it is. */
  predicate IsSummaryMessage(msg: Value) {
    if !msg.Obj? then false
    else if "additional_kwargs" !in msg.fields && "kwargs" !in msg.fields then false
    else if "additional_kwargs" in msg.fields && FlagSet(msg.fields["additional_kwargs"]) then true
    else if "kwargs" in msg.fields && FlagSet(Get(msg.fields["kwargs"], "additional_kwargs")) then true
    else false
  }

  /** A message is a summary exactly when it is an object whose
      `additional_kwargs`, or whose `kwargs.additional_kwargs`, carries the
      flag as the boolean `true`; the key-presence guard adds nothing. */
  lemma SummaryMessageIff(msg: Value)
    ensures IsSummaryMessage(msg) <==>
              msg.Obj? && (FlagSet(Get(msg, "additional_kwargs")) ||
                           FlagSet(Get(Get(msg, "kwargs"), "additional_kwargs")))
    ensures !msg.Obj? ==> !IsSummaryMessage(msg)
  {
  }

  /** Only the boolean `true` counts as the flag: a truthy string or number does not. */
  lemma SummaryFlagIsStrict(v: Value)
    ensures IsSummaryMessage(Obj(map["additional_kwargs" := Obj(map[SummarizedMessageKey := v])])) <==> v == Bool(true)
  {
    var holder := Obj(map[SummarizedMessageKey := v]);
    assert Get(holder, SummarizedMessageKey) == v;
  }

  predicate IsSummary(m: Message) {
    IsSummaryMessage(AsValue(m))
  }

  /** A channel update: one message or an array of them. */
  datatype MessagesUpdate = One(m: Message) | Many(ms: seq<Message>)

  function Items(u: MessagesUpdate): seq<Message> {
    match u
    case One(m) => [m]
    case Many(ms) => ms
  }

  /** The update's last element is a summary (an empty array has none). */
  predicate LatestIsSummary(u: MessagesUpdate) {
    match u
    case One(m) => IsSummary(m)
    case Many(ms) => |ms| > 0 && IsSummary(ms[|ms| - 1])
  }

  /** Both message channels start empty. */
  const DefaultMessages: seq<Message> := []

  /** The `messages` reducer: always appends, in order. */
  function ReduceMessages(state: seq<Message>, u: MessagesUpdate): (r: seq<Message>)
    ensures |r| == |state| + |Items(u)|
    ensures r[..|state|] == state && r[|state|..] == Items(u)
  {
    state + Items(u)
  }

  /** The `_messages` reducer: cleared to the empty list when the update ends
      with a summary message, otherwise the old list followed by the update. */
  function ReduceInternalMessages(state: seq<Message>, u: MessagesUpdate): (r: seq<Message>)
    ensures LatestIsSummary(u) ==> r == []
    ensures !LatestIsSummary(u) ==> |r| == |state| + |Items(u)| && r[..|state|] == state && r[|state|..] == Items(u)
  {
    if LatestIsSummary(u) then [] else state + Items(u)
  }

  /** The summary that triggers the clear is not kept either; the `messages`
      channel, fed the same update, never drops anything. */
  lemma SummaryClearsOnlyInternal(state: seq<Message>, u: MessagesUpdate)
    requires LatestIsSummary(u)
    ensures |ReduceInternalMessages(state, u)| == 0
    ensures ReduceMessages(state, u)[..|state|] == state
    ensures |ReduceMessages(state, u)| > |state|
  {
  }

  /** Without a trailing summary the two reducers agree. */
  lemma ReducersAgreeWithoutSummary(state: seq<Message>, u: MessagesUpdate)
    requires !LatestIsSummary(u)
    ensures ReduceInternalMessages(state, u) == ReduceMessages(state, u)
  {
  }

  /** Only the last element is inspected: a summary earlier in the array is
      appended like any other message. */
  lemma EarlierSummaryIsKept(state: seq<Message>, s: Message, m: Message)
    requires IsSummary(s) && !IsSummary(m)
    ensures ReduceInternalMessages(state, Many([s, m])) == state + [s, m]
  {
  }

  // ---------------------------------------------------------------------
  // graph state

  /** The highlight the current graph works from. */
  datatype TextHighlight = TextHighlight(selectedText: string, markdownBlock: string)

  /** `proposedChanges.metadata`: the operation tag and the highlight it came from. */
  datatype ChangeMetadata = ChangeMetadata(operation: Option<string>, selectedText: string, markdownBlock: string)

  /** `OpenCanvasGraphProposedChanges`. */
  datatype ProposedChange = ProposedChange(currentText: string, proposedText: string, metadata: Option<ChangeMetadata>)

  /** The channels the modelled nodes read or write. Unset boolean flags are `false`. */
  datatype GraphState = GraphState(
    messages: seq<Message>,
    internalMessages: seq<Message>,
    artifact: Option<Artifact>,
    highlightedText: Option<TextHighlight>,
    next: Option<string>,
    language: bool,
    format: bool,
    copyedit: bool,
    proposedChanges: Option<ProposedChange>,
    approvalResult: Option<bool>)

  /** A key of a node's partial return value: absent, or present with a value
      (`Put(None)` is an explicit `undefined`, which clears the channel). */
  datatype Field<T> = Keep | Put(value: T)

  datatype StateUpdate = StateUpdate(
    messages: Field<seq<Message>>,
    internalMessages: Field<seq<Message>>,
    artifact: Field<Artifact>,
    next: Field<string>,
    proposedChanges: Field<Option<ProposedChange>>,
    approvalResult: Field<Option<bool>>)

  const NoChange: StateUpdate := StateUpdate(Keep, Keep, Keep, Keep, Keep, Keep)

  /** `{ proposedChanges: undefined, approvalResult: undefined }`. */
  const ClearApproval: StateUpdate := NoChange.(proposedChanges := Put(None), approvalResult := Put(None))

  /** What a node does: return a partial update, suspend for human review
      (the source's `NodeInterrupt`), or fail with an error message. */
  datatype NodeResult = Update(u: StateUpdate) | Suspended(reason: string, change: ProposedChange) | Fail(msg: string)

  /** Merging a node's update into the state: message keys go through their
      reducers, every other present key overwrites, absent keys keep their value. */
  function ApplyUpdate(s: GraphState, u: StateUpdate): (r: GraphState)
    ensures u.messages.Keep? ==> r.messages == s.messages
    ensures u.messages.Put? ==> r.messages == ReduceMessages(s.messages, Many(u.messages.value))
    ensures u.internalMessages.Keep? ==> r.internalMessages == s.internalMessages
    ensures u.internalMessages.Put? ==>
              r.internalMessages == ReduceInternalMessages(s.internalMessages, Many(u.internalMessages.value))
    ensures u.artifact.Keep? ==> r.artifact == s.artifact
    ensures u.artifact.Put? ==> r.artifact == Some(u.artifact.value)
    ensures u.next.Keep? ==> r.next == s.next
    ensures u.next.Put? ==> r.next == Some(u.next.value)
    ensures u.proposedChanges.Keep? ==> r.proposedChanges == s.proposedChanges
    ensures u.proposedChanges.Put? ==> r.proposedChanges == u.proposedChanges.value
    ensures u.approvalResult.Keep? ==> r.approvalResult == s.approvalResult
    ensures u.approvalResult.Put? ==> r.approvalResult == u.approvalResult.value
    ensures r.highlightedText == s.highlightedText
    ensures r.language == s.language && r.format == s.format && r.copyedit == s.copyedit
  {
    var messages := if u.messages.Put? then ReduceMessages(s.messages, Many(u.messages.value)) else s.messages;
    var internal := if u.internalMessages.Put? then ReduceInternalMessages(s.internalMessages, Many(u.internalMessages.value)) else s.internalMessages;
    GraphState(messages, internal,
               OverwriteSome(u.artifact, s.artifact),
               s.highlightedText,
               OverwriteSome(u.next, s.next),
               s.language, s.format, s.copyedit,
               Overwrite(u.proposedChanges, s.proposedChanges),
               Overwrite(u.approvalResult, s.approvalResult))
  }

  /** A key without a reducer: a present value replaces the current one. */
  function Overwrite<T>(f: Field<T>, current: T): (r: T)
    ensures f.Keep? ==> r == current
    ensures f.Put? ==> r == f.value
  {
    if f.Put? then f.value else current
  }

  /** An optional key without a reducer: a present value is stored. */
  function OverwriteSome<T>(f: Field<T>, current: Option<T>): (r: Option<T>)
    ensures f.Keep? ==> r == current
    ensures f.Put? ==> r == Some(f.value)
  {
    if f.Put? then Some(f.value) else current
  }

  /** An update that only clears the approval channels leaves everything else
      as it was, and applying it twice is applying it once. */
  lemma ClearApprovalIdempotent(s: GraphState)
    ensures ApplyUpdate(ApplyUpdate(s, ClearApproval), ClearApproval) == ApplyUpdate(s, ClearApproval)
    ensures ApplyUpdate(s, ClearApproval) == s.(proposedChanges := None, approvalResult := None)
  {
  }
}
