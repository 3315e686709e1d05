/** The helpers of the deprecated artifact generator
    (apps/deprecate/agents/src/open-canvas/nodes/generate-artifact/utils.ts):
    the generation prompt and the first version built from the tool call. */
module DeprecatedGenerateUtils {
  import opened Wrappers
  import opened Strings
  import opened Artifacts
  import opened Prompts

  /** The instruction Claude models get instead of thinking aloud. */
  const DisableChainOfThought: string :=
    "\n\nIMPORTANT: Do NOT preform chain of thought beforehand. Instead, go STRAIGHT to generating the tool response. This is VERY important."

  /** `formatNewArtifactPrompt(modelName)`. */
  function FormatNewArtifactPrompt(modelName: string): (r: string)
    ensures Contains(modelName, "claude") ==> |r| == |NewArtifactHead| + |DisableChainOfThought|
    ensures !Contains(modelName, "claude") ==> |r| == |NewArtifactHead|
  {
    FirstPlaceholder();
    ReplaceFirst(NewArtifactPrompt, "{disableChainOfThought}", if Contains(modelName, "claude") then DisableChainOfThought else "")
  }

  /** The template holds its placeholder, after a head without '{'. */
  lemma FirstPlaceholder()
    ensures Contains(NewArtifactPrompt, "{disableChainOfThought}")
    ensures '{' !in NewArtifactHead
  {
    assert NewArtifactPrompt == NewArtifactHead + "{disableChainOfThought}" + "";
    Fill(NewArtifactHead, "{disableChainOfThought}", "", "");
    FirstOccurrenceAfter(NewArtifactHead, "{disableChainOfThought}", "");
  }

  /** The prompt is the instructions, followed by the chain-of-thought
      warning exactly when the model name mentions Claude. */
  lemma NewArtifactPromptShape(modelName: string)
    ensures FormatNewArtifactPrompt(modelName) ==
              NewArtifactHead + (if Contains(modelName, "claude") then DisableChainOfThought else "")
  {
    var v := if Contains(modelName, "claude") then DisableChainOfThought else "";
    FirstPlaceholder();
    assert NewArtifactPrompt == NewArtifactHead + "{disableChainOfThought}" + "";
    Fill(NewArtifactHead, "{disableChainOfThought}", "", v);
    assert NewArtifactHead + v + "" == NewArtifactHead + v;
  }

  /** The arguments of the artifact tool call. */
  datatype ToolArgs = ToolArgs(title: string, artifact: string)

  /** `createArtifactContent(toolCall)`: the first version of a new
      artifact, always text and always numbered 1. */
  function CreateArtifactContent(toolCall: ToolArgs): (c: Content)
    ensures c.Flat? && c.index == 1 && c.kind == "text"
    ensures c.title == toolCall.title && c.fullMarkdown == toolCall.artifact
    ensures IsMarkdownContent(c)
  {
    Flat(1, "text", toolCall.title, toolCall.artifact)
  }

  /** An artifact holding only the generated version is numbered by
      position and selects that version. */
  lemma GeneratedArtifactIsIndexed(toolCall: ToolArgs)
    ensures var a := Artifact(1, [CreateArtifactContent(toolCall)]);
            Indexed(a) && CurrentContent(a) == Some(CreateArtifactContent(toolCall)) &&
            FindCurrentText(a) == Some(CreateArtifactContent(toolCall))
  {
    var c := CreateArtifactContent(toolCall);
    var a := Artifact(1, [c]);
    assert a.contents[0] == c;
  }
}
