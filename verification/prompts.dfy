/**
 * `generateSlidePrompt`, the prompt template for one slide: a fixed block of
 * instructions, the slide's raw notes between <rawtext> tags, then the
 * caller's custom instructions (empty when none are given). The format route
 * in src/app/api/format/route.js writes its own, shorter prompt inline and
 * does not use this template.
 */
module Prompts {
  import opened Wrappers
  import opened Strings

  /** The instruction that lines starting with ">" are rendered without the model. */
  const QuotedLinesNote: string := "Any lines that begin with \">\" will be included automatically"

  /** The marker the model is told to answer with when nothing should be added. */
  const NoExtraContent: string := "NO_EXTRA_CONTENT"

  /*
   * The fixed text before the notes, in three pieces around the two phrases
   * above, written as short literals joined together.
   */
  const PromptHead: string :=
    "\n"
    + "You will be given raw text inside of <rawtext> tags. These are the "
    + "speaking notes for a slide in a presentation. Your job is to extract "
    + "important points from these notes and format them into markdown that "
    + "can be used in a slide. You should prefer brief bullet points, or if "
    + "there is only one key point, you can just write it as a sentence.\n"
    + "\n"
    + "The first line of each slide is preceded by a \"-\" and represents the "
    + "title of the slide. You do not need to include this title in your "
    + "response.\n"
    + "\n"

  const PromptBody: string :=
    " so you don't need to include them or repeat the content in them.\n"
    + "\n"
    + "You do not need to generate heading tags (no # or ##), but you can use "
    + "bold text for emphasis.\n"
    + "\n"
    + "Things that look like code should be formatted with backticks.\n"
    + "\n"
    + "Things that look like links should be made into markdown links.\n"
    + "\n"
    + "You should respond with only the formatted content, no preamble or "
    + "explanations are necessary.\n"
    + "\n"
    + "It's possible that because of what will get automatically rendered you "
    + "shouldn't add anything, in which case you should respond with just the "
    + "string \""

  const PromptTail: string :=
    "\", especially if there are recommendations in <recommendations> tags "
    + "below the rawtext that suggest you not add anything.\n"
    + "\n"
    + "<rawtext>\n"

  const PromptAfterNote: string := PromptBody + NoExtraContent + PromptTail

  /** Everything before the slide's notes, ending with the opening tag line. */
  const PromptPrefix: string := PromptHead + QuotedLinesNote + PromptAfterNote

  /** The text between the notes and the custom instructions. */
  const PromptMiddle: string := "\n</rawtext>\n\n"

  /** The template ends with a newline after the custom instructions. */
  const PromptEnd: string := "\n"

  /**
   * The template with its fixed text before the notes left open: the notes,
   * the closing tag, the custom instructions and the final newline follow
   * `prefix` in that order.
   */
  function FillTemplate(prefix: string, content: string, customInstructions: string): (r: string)
    ensures |r| == |prefix| + |PromptMiddle| + |PromptEnd| + |content| + |customInstructions|
    ensures StartsWith(r, prefix + content + PromptMiddle)
    ensures r[|prefix|..|prefix| + |content|] == content
    ensures EndsWith(r, customInstructions + PromptEnd)
  {
    var r := prefix + content + PromptMiddle + customInstructions + PromptEnd;
    assert r[..|prefix + content + PromptMiddle|] == prefix + content + PromptMiddle;
    r
  }

  /**
   * Reads the notes back out of a filled template with the given prefix and
   * custom instructions: exactly the notes that fill it to `prompt`, or None
   * when no notes do.
   */
  function TemplateContent(prefix: string, prompt: string, customInstructions: string): (r: Option<string>)
    ensures r.Some? ==> FillTemplate(prefix, r.value, customInstructions) == prompt
    ensures forall c :: FillTemplate(prefix, c, customInstructions) == prompt ==> r == Some(c)
  {
    var fixedLen := |prefix| + |PromptMiddle| + |PromptEnd| + |customInstructions|;
    if |prompt| < fixedLen then None
    else
      var content := prompt[|prefix|..|prompt| - |PromptMiddle| - |PromptEnd| - |customInstructions|];
      if prompt == FillTemplate(prefix, content, customInstructions) then Some(content) else None
  }

  lemma TemplateContentOfFill(prefix: string, content: string, customInstructions: string)
    ensures TemplateContent(prefix, FillTemplate(prefix, content, customInstructions), customInstructions) == Some(content)
  {
  }

  /**
   * `generateSlidePrompt(content, customInstructions = '')`: the notes sit
   * verbatim right after the fixed text, the instructions right before the
   * final newline, and the default instructions are empty.
   */
  function GenerateSlidePrompt(content: string, customInstructions: string := ""): (r: string)
    ensures StartsWith(r, PromptPrefix + content + PromptMiddle)
    ensures EndsWith(r, customInstructions + PromptEnd)
  {
    FillTemplate(PromptPrefix, content, customInstructions)
  }

  /**
   * Reads the notes back out of a prompt built with the given custom
   * instructions: exactly the notes that generate it, or None when no notes do.
   */
  function ContentOf(prompt: string, customInstructions: string): (r: Option<string>)
    ensures r.Some? ==> GenerateSlidePrompt(r.value, customInstructions) == prompt
    ensures forall c :: GenerateSlidePrompt(c, customInstructions) == prompt ==> r == Some(c)
  {
    TemplateContent(PromptPrefix, prompt, customInstructions)
  }

  /** The prompt is as long as its fixed text plus the notes and the instructions. */
  lemma PromptLength(content: string, customInstructions: string)
    ensures |GenerateSlidePrompt(content, customInstructions)|
         == |PromptPrefix| + |PromptMiddle| + |PromptEnd| + |content| + |customInstructions|
  {
  }

  /** Reading the notes back out of a generated prompt gives the notes. */
  lemma ContentOfPrompt(content: string, customInstructions: string)
    ensures ContentOf(GenerateSlidePrompt(content, customInstructions), customInstructions) == Some(content)
  {
    TemplateContentOfFill(PromptPrefix, content, customInstructions);
  }

  /** With the custom instructions fixed, distinct notes give distinct prompts. */
  lemma PromptInjectiveInContent(c1: string, c2: string, customInstructions: string)
    requires GenerateSlidePrompt(c1, customInstructions) == GenerateSlidePrompt(c2, customInstructions)
    ensures c1 == c2
  {
    ContentOfPrompt(c1, customInstructions);
    ContentOfPrompt(c2, customInstructions);
  }

  lemma FillInjectiveInInstructions(prefix: string, content: string, i1: string, i2: string)
    requires FillTemplate(prefix, content, i1) == FillTemplate(prefix, content, i2)
    ensures i1 == i2
  {
    var p := FillTemplate(prefix, content, i1);
    var start := |prefix| + |content| + |PromptMiddle|;
    assert p[start..|p| - 1] == i1;
    assert FillTemplate(prefix, content, i2)[start..|p| - 1] == i2;
  }

  /** With the notes fixed, distinct custom instructions give distinct prompts. */
  lemma PromptInjectiveInInstructions(content: string, i1: string, i2: string)
    requires GenerateSlidePrompt(content, i1) == GenerateSlidePrompt(content, i2)
    ensures i1 == i2
  {
    FillInjectiveInInstructions(PromptPrefix, content, i1, i2);
  }

  lemma FillPairAmbiguous(prefix: string, a: string, b: string, c: string)
    ensures FillTemplate(prefix, a + PromptMiddle + b, c) == FillTemplate(prefix, a, b + PromptMiddle + c)
  {
  }

  /**
   * The pair (notes, instructions) is not recoverable from the prompt:
   * notes that contain the closing tag text can trade places with
   * instructions that contain it.
   */
  lemma PromptPairAmbiguous()
    ensures GenerateSlidePrompt("a" + PromptMiddle + "b", "c") == GenerateSlidePrompt("a", "b" + PromptMiddle + "c")
  {
    FillPairAmbiguous(PromptPrefix, "a", "b", "c");
  }

  /** A phrase of the fixed prefix is in every filled template. */
  lemma PrefixPhraseInFill(prefix: string, content: string, customInstructions: string, pat: string)
    requires Contains(prefix, pat)
    ensures Contains(FillTemplate(prefix, content, customInstructions), pat)
  {
    ContainsExtended(prefix, content, pat);
    ContainsExtended(prefix + content, PromptMiddle, pat);
    ContainsExtended(prefix + content + PromptMiddle, customInstructions, pat);
    ContainsExtended(prefix + content + PromptMiddle + customInstructions, PromptEnd, pat);
  }

  /** The fixed text names the no-extra-content marker and the rule for ">" lines. */
  lemma PromptMentionsMarkerAndQuotedLines(content: string, customInstructions: string)
    ensures Contains(GenerateSlidePrompt(content, customInstructions), NoExtraContent)
    ensures Contains(GenerateSlidePrompt(content, customInstructions), QuotedLinesNote)
  {
    OccursAfter(PromptHead, QuotedLinesNote, PromptAfterNote);
    OccursAfter(PromptBody, NoExtraContent, PromptTail);
    ContainsPrepended(PromptHead + QuotedLinesNote, PromptAfterNote, NoExtraContent);
    PrefixPhraseInFill(PromptPrefix, content, customInstructions, QuotedLinesNote);
    PrefixPhraseInFill(PromptPrefix, content, customInstructions, NoExtraContent);
  }
}
