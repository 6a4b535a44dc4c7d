/**
 * Prompt construction of `getGeminiSummary` (popup.js): the article text is
 * truncated to a fixed maximum, then placed after a fixed instruction chosen by
 * the summary mode, separated by a blank line. The prompt is a pure function of
 * (text, mode).
 */
module Prompt {
  import opened Wrappers

  /** Longest article text sent as is; longer texts are cut to this many characters. */
  const MaxLength: nat := 20000
  /** Appended after a cut text. */
  const TruncationMarker: string := "..."
  /** Between the instruction and the article: a blank line. */
  const Separator: string := "\n\n"

  const BriefInstruction: string :=
    "Provide a brief summary of the following article in 2-3 sentences:"
  const DetailedInstruction: string :=
    "Provide a detailed summary of the following article, covering all main points and key details:"
  const BulletsInstruction: string :=
    "Summarize the following article in 5-7 key points. Format each point as a line starting with \"- \" (dash followed by a space). Do not use asterisks or other bullet symbols:"
  const GenericInstruction: string :=
    "Summarize the following article:"

  /**
   * The article part of the prompt: `text` itself, or its first MaxLength
   * characters followed by the truncation marker when it is longer.
   */
  function Truncate(text: string): (r: string)
    ensures |r| <= MaxLength + |TruncationMarker|
    ensures |text| <= MaxLength ==> r == text
    ensures |text| > MaxLength ==>
      |r| == MaxLength + |TruncationMarker| && r[..MaxLength] == text[..MaxLength] && r[MaxLength..] == TruncationMarker
  {
    if |text| > MaxLength then text[..MaxLength] + TruncationMarker else text
  }

  /** Truncating twice is truncating once: a cut text is already at its final length. */
  lemma TruncateIdempotent(text: string)
    ensures Truncate(Truncate(text)) == Truncate(text)
  {
  }

  /**
   * A text comes through truncation unchanged exactly when it is short enough,
   * or when it is exactly a MaxLength prefix followed by the marker.
   */
  lemma TruncateFixedPoint(text: string)
    ensures Truncate(text) == text <==>
      |text| <= MaxLength || (|text| == MaxLength + |TruncationMarker| && text[MaxLength..] == TruncationMarker)
  {
  }

  /** The fixed instruction for a summary mode; any unrecognised mode gets the generic one. */
  function Instruction(mode: string): string {
    match mode
    case "brief" => BriefInstruction
    case "detailed" => DetailedInstruction
    case "bullets" => BulletsInstruction
    case _ => GenericInstruction
  }

  /** The three named modes have their own instructions; every other mode shares the generic one. */
  lemma InstructionByMode(mode: string)
    ensures mode == "brief" <==> Instruction(mode) == BriefInstruction
    ensures mode == "detailed" <==> Instruction(mode) == DetailedInstruction
    ensures mode == "bullets" <==> Instruction(mode) == BulletsInstruction
    ensures mode !in {"brief", "detailed", "bullets"} <==> Instruction(mode) == GenericInstruction
  {
  }

  /** The prompt sent for `text` in `mode`. */
  function BuildPrompt(text: string, mode: string): string {
    Instruction(mode) + Separator + Truncate(text)
  }

  /**
   * A prompt opens with the mode's instruction and a blank line; its article
   * part is never longer than a cut text, and a short text is that part unchanged.
   */
  lemma PromptLayout(text: string, mode: string)
    ensures Instruction(mode) + Separator <= BuildPrompt(text, mode)
    ensures |BuildPrompt(text, mode)| <= |Instruction(mode)| + |Separator| + MaxLength + |TruncationMarker|
    ensures |text| <= MaxLength ==> BuildPrompt(text, mode)[|Instruction(mode)| + |Separator|..] == text
  {
  }

  /** Reads back the article part of a prompt built for `mode`, or None when it is not such a prompt. */
  function ArticleOf(prompt: string, mode: string): (r: Option<string>)
    ensures r.Some? ==> prompt == Instruction(mode) + Separator + r.value
  {
    var head := Instruction(mode) + Separator;
    if |head| <= |prompt| && prompt[..|head|] == head then Some(prompt[|head|..]) else None
  }

  /**
   * For every mode, the prompt is the mode's instruction, a blank line, and
   * exactly the truncated article: for a long text its 20000-character prefix
   * and "...", otherwise the text unchanged.
   */
  lemma PromptArticle(text: string, mode: string)
    ensures ArticleOf(BuildPrompt(text, mode), mode) == Some(Truncate(text))
    ensures |text| > MaxLength ==> ArticleOf(BuildPrompt(text, mode), mode) == Some(text[..MaxLength] + "...")
    ensures |text| <= MaxLength ==> ArticleOf(BuildPrompt(text, mode), mode) == Some(text)
  {
  }

  /** Different texts that survive truncation unchanged give different prompts in the same mode. */
  lemma PromptInjective(t1: string, t2: string, mode: string)
    requires |t1| <= MaxLength && |t2| <= MaxLength
    requires BuildPrompt(t1, mode) == BuildPrompt(t2, mode)
    ensures t1 == t2
  {
    PromptArticle(t1, mode);
    PromptArticle(t2, mode);
  }
}
