/**
 * `BlogGenerator`: whether the LLM is available, the table of templates, which
 * text a prompt is built from, and the dispatch of `generate_blog`. The LLM
 * call is a function parameter; the wording of the prompts is not modelled,
 * only what each prompt is built from.
 */
module Blog {
  import opened Outcomes
  import opened Text

  /** The four prompt builders of `self.templates`. */
  datatype Template = Article | Tutorial | Review | Summary

  /** `self.templates[name]`, or None when the name is not a key of the table. */
  function TemplateNamed(name: string): (t: Option<Template>)
    ensures t.Some? <==> name == "article" || name == "tutorial" || name == "review" || name == "summary"
    ensures t == Some(Article) <==> name == "article"
    ensures t == Some(Tutorial) <==> name == "tutorial"
    ensures t == Some(Review) <==> name == "review"
    ensures t == Some(Summary) <==> name == "summary"
  {
    if name == "article" then Some(Article)
    else if name == "tutorial" then Some(Tutorial)
    else if name == "review" then Some(Review)
    else if name == "summary" then Some(Summary)
    else None
  }

  /** How constructing `LLMService()` ended: it worked, it raised ValueError, or it raised something else. */
  datatype LlmStart = Started | ValueErrorRaised | OtherErrorRaised

  /** The state `__init__` leaves: `self.llm_enabled` (the template table is constant). */
  datatype BlogGenerator = BlogGenerator(llmEnabled: bool)

  /** `BlogGenerator()`: a ValueError disables the LLM; any other exception escapes the constructor. */
  function NewBlogGenerator(start: LlmStart): (g: Result<BlogGenerator>)
    ensures g.Failure? <==> start == OtherErrorRaised
    ensures g.Success? ==> (g.value.llmEnabled <==> start == Started)
  {
    match start
    case Started => Success(BlogGenerator(true))
    case ValueErrorRaised => Success(BlogGenerator(false))
    case OtherErrorRaised => Failure("LLMService() raised")
  }

  /** The video record handed to `generate_blog`; a missing key is absent from the map. */
  type VideoData = map<string, string>

  /** `video_data.get(key)` inside an f-string: a missing key prints as `None`. */
  function Shown(videoData: VideoData, key: string): string {
    if key in videoData then videoData[key] else "None"
  }

  const TranscriptSource: string := "video transcript"
  const DescriptionSource: string := "video description"
  /** Characters a transcript must keep after `strip()` before it is preferred (strictly more). */
  const SubstantialLength: nat := 100
  /** Characters of the content source a prompt embeds. */
  const ExcerptLength: nat := 4000

  /** A transcript worth using: present and more than 100 characters once stripped. */
  predicate Substantial(transcript: Option<string>) {
    transcript.Some? && |Strip(transcript.value)| > SubstantialLength
  }

  /** `_get_content_source`: the text and the name of where it came from. */
  function ContentSource(videoData: VideoData, transcript: Option<string>): (r: (string, string))
    ensures r.1 == TranscriptSource <==> Substantial(transcript)
    ensures Substantial(transcript) ==> r.0 == transcript.value
    ensures !Substantial(transcript) ==>
              (r.1 == DescriptionSource && r.0 == (if "description" in videoData then videoData["description"] else ""))
  {
    var description := if "description" in videoData then videoData["description"] else "";
    if transcript.Some? && transcript.value != [] && |Strip(transcript.value)| > SubstantialLength then
      (transcript.value, TranscriptSource)
    else (description, DescriptionSource)
  }

  /** What a prompt builder puts in its user prompt; the surrounding wording is fixed per template. */
  datatype Prompt = Prompt(template: Template, title: string, channel: string, sourceType: string, excerpt: string)

  /** `self._create_<template>_prompt(video_data, transcript)`. */
  function BuildPrompt(template: Template, videoData: VideoData, transcript: Option<string>): (p: Prompt)
    ensures p.template == template
    ensures |p.excerpt| == if |ContentSource(videoData, transcript).0| < ExcerptLength
                            then |ContentSource(videoData, transcript).0| else ExcerptLength
    ensures p.excerpt <= ContentSource(videoData, transcript).0
    ensures p.sourceType == ContentSource(videoData, transcript).1
  {
    var (source, sourceType) := ContentSource(videoData, transcript);
    var excerpt := if |source| < ExcerptLength then source else source[..ExcerptLength];
    Prompt(template, Shown(videoData, "title"), Shown(videoData, "channel_name"), sourceType, excerpt)
  }

  const NotAvailable: string :=
    "## LLM Service Not Available\n\nPlease ensure your `NEBIUS_API_KEY` is correctly set in your `.env` file and restart the server."

  /** `generate_blog`: the fixed notice when the LLM is off, ValueError for an unknown template, else the LLM's text. */
  function GenerateBlog(g: BlogGenerator, videoData: VideoData, template: string, transcript: Option<string>,
                        llm: Prompt -> string): (r: Result<string>)
    ensures !g.llmEnabled ==> r == Success(NotAvailable)
    ensures g.llmEnabled ==> (r.Failure? <==> TemplateNamed(template).None?)
    ensures g.llmEnabled && TemplateNamed(template).Some? ==>
              r == Success(llm(BuildPrompt(TemplateNamed(template).value, videoData, transcript)))
  {
    if !g.llmEnabled then Success(NotAvailable)
    else match TemplateNamed(template)
         case None => Failure("Unknown template: " + template)
         case Some(t) => Success(llm(BuildPrompt(t, videoData, transcript)))
  }

  // ---------------------------------------------------------------------------
  // Properties

  /** With the LLM off, neither the template name nor the LLM matters. */
  lemma DisabledIgnoresTemplate(g: BlogGenerator, videoData: VideoData, template1: string, template2: string,
                                transcript: Option<string>, llm1: Prompt -> string, llm2: Prompt -> string)
    requires !g.llmEnabled
    ensures GenerateBlog(g, videoData, template1, transcript, llm1) == GenerateBlog(g, videoData, template2, transcript, llm2)
  {
  }

  /** An unknown template fails before the LLM is asked: the outcome is the same whatever the LLM says. */
  lemma UnknownTemplateBeforeLlm(g: BlogGenerator, videoData: VideoData, template: string,
                                 transcript: Option<string>, llm1: Prompt -> string, llm2: Prompt -> string)
    requires g.llmEnabled && template !in ["article", "tutorial", "review", "summary"]
    ensures GenerateBlog(g, videoData, template, transcript, llm1).Failure?
    ensures GenerateBlog(g, videoData, template, transcript, llm1) == GenerateBlog(g, videoData, template, transcript, llm2)
  {
  }

  /** The prompt depends on the transcript only through the content source it selects. */
  lemma PromptIgnoresThinTranscript(template: Template, videoData: VideoData, transcript: Option<string>)
    requires !Substantial(transcript)
    ensures BuildPrompt(template, videoData, transcript) == BuildPrompt(template, videoData, None)
  {
  }

  /** A transcript of 100 or fewer characters after stripping loses to the description, whatever its padding. */
  lemma ContentSourceExample(videoData: VideoData)
    requires "description" !in videoData
    ensures ContentSource(videoData, Some("   short   ")) == ("", DescriptionSource)
    ensures ContentSource(videoData, None) == ("", DescriptionSource)
  {
    var t := "   short   ";
    assert |Strip(t)| <= |t|;
  }
}
