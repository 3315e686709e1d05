/** The prompt templates the modelled nodes fill: those of
    apps/agents/src/open-canvas/prompts.ts, the highlight prompt of
    updateHighlightedText.ts, and the templates of the deprecated nodes (the
    partial update, the theme rewrite and new-artifact generation), whose own
    prompt module is not part of this model and is reconstructed from the
    placeholders their callers fill.

    Each template is kept as its placeholders, in their order, separated by
    abbreviated instruction text. None of the separating text contains '{',
    so the first `{name}` that `replace` finds is always the placeholder
    itself as long as the values filled in before it contain no '{' either. */
module Prompts {

  // updateHighlightedText.ts: {highlightedText}, {textBlocks}, {info}, {request}
  const HighlightHead: string := "# Selected text\n"
  const HighlightAfterSelection: string := "\n\n# Text block\n"
  const HighlightAfterBlock: string := "\n\n# Additional information\n"
  const HighlightAfterInfo: string := "\n\n# User request\n"
  const HighlightTail: string := "\nOnly reply with the updated text."

  const HighlightPrompt: string :=
    HighlightHead + "{highlightedText}" + (HighlightAfterSelection + "{textBlocks}" +
    (HighlightAfterBlock + "{info}" + (HighlightAfterInfo + "{request}" + HighlightTail)))

  // Text modification prompts: one {artifactContent} each.
  const ArtifactOpen: string := "\n<artifact>\n"
  const ArtifactClose: string := "\n</artifact>\nRespond with ONLY the updated artifact."

  const LanguageHead: string := "Translate the artifact to English." + ArtifactOpen
  const FormatHead: string := "Format the artifact for publication." + ArtifactOpen
  const CopyeditHead: string := "Copy-edit the artifact." + ArtifactOpen

  const ChangeArtifactLanguagePrompt: string := LanguageHead + "{artifactContent}" + ArtifactClose
  const ChangeArtifactFormat: string := FormatHead + "{artifactContent}" + ArtifactClose
  const CopyeditArtifactPrompt: string := CopyeditHead + "{artifactContent}" + ArtifactClose

  // Rewrite-artifact prompts.
  const MetaHead: string := "The artifact type should be:\n"
  const MetaMiddle: string := "\n\n"
  const MetaTail: string := "\n\nUse this as context."
  const OptionallyUpdateMetaPrompt: string := MetaHead + "{artifactType}" + (MetaMiddle + "{artifactTitle}" + MetaTail)

  const EntireHead: string := "Update the artifact." + ArtifactOpen
  const EntireMiddle: string := "\n</artifact>\n"
  const EntireTail: string := "\nReply with ONLY the artifact.\n"
  const UpdateEntireArtifactPrompt: string := EntireHead + "{artifactContent}" + (EntireMiddle + "{updateMetaPrompt}" + EntireTail)

  // New-artifact prompt: ends with {disableChainOfThought}.
  const NewArtifactHead: string := "Generate a new artifact.\n"
  const NewArtifactPrompt: string := NewArtifactHead + "{disableChainOfThought}"

  // Highlight prompt of the deprecated partial update: {beforeHighlight}<highlight>{highlightedText}</highlight>{afterHighlight}
  const PartialHead: string := "Update the highlighted part.\n"
  const PartialTail: string := "\nReply with the new highlight."
  const UpdateHighlightedArtifactPrompt: string :=
    PartialHead + "{beforeHighlight}" + "<highlight>" + "{highlightedText}" + "</highlight>" + "{afterHighlight}" + PartialTail

  // Prompts of the deprecated theme node.
  const LevelHead: string := "Rewrite for a "
  const LevelMiddle: string := " reading level, for a "
  const LevelTail: string := " audience." + ArtifactOpen
  const ChangeArtifactReadingLevelPrompt: string :=
    LevelHead + "{newReadingLevel}" + LevelMiddle + "{newReadingLevel}" + LevelTail + "{artifactContent}" + ArtifactClose

  const PirateHead: string := "Rewrite like a pirate." + ArtifactOpen
  const ChangeArtifactToPiratePrompt: string := PirateHead + "{artifactContent}" + ArtifactClose

  const TranslateHead: string := "Translate the artifact to "
  const TranslateMiddle: string := "." + ArtifactOpen
  const ChangeArtifactLanguageToPrompt: string := TranslateHead + "{newLanguage}" + TranslateMiddle + "{artifactContent}" + ArtifactClose

  const LengthHead: string := "Rewrite the artifact to be "
  const LengthMiddle: string := "." + ArtifactOpen
  const ChangeArtifactLengthPrompt: string := LengthHead + "{newLength}" + LengthMiddle + "{artifactContent}" + ArtifactClose

  const EmojisHead: string := "Add emojis to the artifact." + ArtifactOpen
  const AddEmojisToArtifactPrompt: string := EmojisHead + "{artifactContent}" + ArtifactClose
}
