/** What the nodes receive from outside the graph: the run configuration and
    the host capabilities (model calls, thinking-model support, fresh ids). */
module Runtime {
  import opened Wrappers
  import opened Messages

  /** An opaque handle on the key-value store. */
  datatype Store = Store(id: nat)

  /** `config.configurable` and `config.store`. An empty string stands for a
      missing or empty `customModelName`/`assistant_id`. */
  datatype Config = Config(customModelName: string, assistantId: string, store: Option<Store>)

  /** `extractThinkingAndResponseTokens`' result. */
  datatype ThinkingSplit = ThinkingSplit(thinking: string, response: string)

  /** The host's capabilities, left uninterpreted:
      - `invoke(model, prompt)` is the reply text of a model call, or the error it raised;
      - `invokeContent(model, prompt)` is the same call when the reply may be structured;
      - `isThinkingModel` and `extractThinking` are the shared thinking helpers;
      - `freshId` is the uuid a node draws. */
  datatype Host = Host(
    invoke: (string, string) -> Result<string>,
    invokeContent: (string, string) -> Result<MessageContent>,
    isThinkingModel: string -> bool,
    extractThinking: string -> ThinkingSplit,
    freshId: string)
}
