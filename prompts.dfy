/** The fixed text of the system prompt, line by line as the template literal has it. */
module PromptText {

  /** The two marker lines the instructions show the model. */
  const FILE_MARKER := "<<<FILE: filename.html>>>"
  const END_MARKER := "<<<END_FILE>>>"

  /** The instructions up to the marker example. */
  const INTRO: string :=
    "You are an expert web developer and UI designer.\n"
    + "  You build beautiful websites through a terminal chat interface.\n"
    + "   \n"
    + "  ## CRITICAL: File Output Format\n"
    + "  You MUST wrap every file in these exact markers:\n"
    + "   \n"
    + "  "

  /** The marker example. */
  const EXAMPLE_BODY := "\n  ...complete file content...\n  "
  const EXAMPLE: string := FILE_MARKER + EXAMPLE_BODY + END_MARKER

  /** The instructions after the marker example, up to where the context block goes. */
  const GUIDE: string :=
    "\n"
    + "   \n"
    + "  Rules:\n"
    + "  - Use these markers for EVERY file you create or modify\n"
    + "  - Always output the COMPLETE file \U{2014} never truncate\n"
    + "  - For simple sites: one self-contained index.html (CSS inside <style>, JS inside <script>)\n"
    + "  - For React sites: include package.json, index.html, vite.config.js, src/main.jsx, src/App.jsx\n"
    + "   \n"
    + "  ## Default: Single HTML File\n"
    + "  Unless the user asks for React, output ONE index.html file.\n"
    + "  Put all CSS in a <style> tag. Put all JS in a <script> tag.\n"
    + "  This opens directly in any browser with no install step.\n"
    + "   \n"
    + "  ## Design Standards\n"
    + "  - Create STUNNING, professional designs \U{2014} not generic templates\n"
    + "  - Use Google Fonts (import in <style> tag) \U{2014} never use Arial or system fonts\n"
    + "  - Use CSS custom properties (variables) for colors\n"
    + "  - Smooth animations and hover effects\n"
    + "  - Fully responsive (works on mobile)\n"
    + "  - Real placeholder content \U{2014} not Lorem ipsum\n"
    + "  - Image placeholders: https://picsum.photos/800/400\n"
    + "   \n"
    + "  ## Code Quality\n"
    + "  - Semantic HTML5 (use header, main, section, footer, nav)\n"
    + "  - Clean, readable, well-commented code\n"
    + "  - Flexbox and CSS Grid for layout\n"
    + "  - All text must be readable (good color contrast)\n"
    + "   \n"
    + "  ## Response Format\n"
    + "  - Start with 1-2 sentences acknowledging the request\n"
    + "  - Then output the file(s) immediately\n"
    + "  - End with: \"To preview: open the projects folder and double-click index.html\"\n"
    + "  - For edits: briefly explain what changed\n"
    + "   \n"
    + "  "

  /** The part of the prompt before the context block: the same for every context. */
  const PREAMBLE: string := INTRO + EXAMPLE + GUIDE

  /** The context block when no file has been written yet. */
  const NO_FILES := "No files created yet. This is a brand new project."

  const PROJECT_HEADING := "\n  ## Current Project\n  "
  const FILES_LABEL := "Files already created: "
  const CONTENTS_BREAK := "\n   \n  "

  /** The instruction that follows the file contents. */
  const COMPLETE_FILES: string :=
    "\n"
    + "   \n"
    + "  When modifying: output the COMPLETE updated file every time.\n"
    + "  Never output partial files or diffs \U{2014} always the full content.\n"
    + "  "
}

/** `buildSystemPrompt(projectContext)`: the fixed instructions, then either the project's
    files or a note that there are none yet. */
module Prompts {

  import opened Wrappers
  import opened Text
  import opened PromptText
  import FileManager

  /** `contextBlock`: the file names joined with `, `, the rendered contents and the
      instruction to output whole files; or, without a context, the note that there are
      no files yet. The directory of the context is not used. */
  function ContextBlock(ctx: Option<FileManager.Context>): string
  {
    match ctx
    case None => NO_FILES
    case Some(c) => PROJECT_HEADING + (FILES_LABEL + Join(", ", c.files)) + (CONTENTS_BREAK + (c.fileContents + COMPLETE_FILES))
  }

  /** The template of the prompt, for any preamble: the preamble, then the context block. */
  function PromptWith(preamble: string, ctx: Option<FileManager.Context>): string
  {
    preamble + ContextBlock(ctx)
  }

  /** `buildSystemPrompt(projectContext)`. */
  function BuildSystemPrompt(ctx: Option<FileManager.Context>): string
  {
    PromptWith(PREAMBLE, ctx)
  }

  /** The template starts with its preamble, whatever the context. */
  lemma StartsWithPreamble(preamble: string, ctx: Option<FileManager.Context>)
    ensures StartsWith(PromptWith(preamble, ctx), preamble)
  {
    StartsWithConcat(preamble, ContextBlock(ctx));
  }

  /** So every prompt starts with the same preamble. */
  lemma PromptStartsWithPreamble(ctx: Option<FileManager.Context>)
    ensures StartsWith(BuildSystemPrompt(ctx), PREAMBLE)
  {
    StartsWithPreamble(PREAMBLE, ctx);
  }

  /** Without a context the template ends with the note that there are no files yet. */
  lemma EndsWithNoFiles(preamble: string)
    ensures EndsWith(PromptWith(preamble, None), NO_FILES)
  {
    EndsWithSelf(NO_FILES);
    EndsWithFront(preamble, NO_FILES, NO_FILES);
  }

  /** So does the prompt. */
  lemma PromptWithoutContext()
    ensures EndsWith(BuildSystemPrompt(None), NO_FILES)
  {
    EndsWithNoFiles(PREAMBLE);
  }

  /** With a context the template names the files, joined with `, `, after the label. */
  lemma ListsFiles(preamble: string, c: FileManager.Context)
    ensures IsInfix(FILES_LABEL + Join(", ", c.files), PromptWith(preamble, Some(c)))
  {
    var w := FILES_LABEL + Join(", ", c.files);
    var y := CONTENTS_BREAK + (c.fileContents + COMPLETE_FILES);
    AtSelf(w);
    AtShift(PROJECT_HEADING, w, 0, w);
    AtExtend(PROJECT_HEADING + w, y, |PROJECT_HEADING| + 0, w);
    AtShift(preamble, PROJECT_HEADING + w + y, |PROJECT_HEADING| + 0, w);
  }

  /** So does the prompt. */
  lemma PromptListsFiles(c: FileManager.Context)
    ensures IsInfix(FILES_LABEL + Join(", ", c.files), BuildSystemPrompt(Some(c)))
  {
    ListsFiles(PREAMBLE, c);
  }

  /** With a context the template ends with the file contents, verbatim, followed by the
      instruction to output complete files and never diffs. */
  lemma EndsWithContents(preamble: string, c: FileManager.Context)
    ensures EndsWith(PromptWith(preamble, Some(c)), c.fileContents + COMPLETE_FILES)
  {
    var t := c.fileContents + COMPLETE_FILES;
    var w := FILES_LABEL + Join(", ", c.files);
    EndsWithSelf(t);
    EndsWithFront(CONTENTS_BREAK, t, t);
    EndsWithFront(PROJECT_HEADING + w, CONTENTS_BREAK + t, t);
    EndsWithFront(preamble, PROJECT_HEADING + w + (CONTENTS_BREAK + t), t);
  }

  /** So does the prompt. */
  lemma PromptEndsWithContents(c: FileManager.Context)
    ensures EndsWith(BuildSystemPrompt(Some(c)), c.fileContents + COMPLETE_FILES)
  {
    EndsWithContents(PREAMBLE, c);
  }

  /** The two context blocks end in different characters (the note with `.`, the block
      with a space), so the two templates differ. */
  lemma BlocksDiffer(preamble: string, c: FileManager.Context)
    ensures PromptWith(preamble, None) != PromptWith(preamble, Some(c))
  {
    EndsWithNoFiles(preamble);
    EndsWithContents(preamble, c);
    var a, b := PromptWith(preamble, None), PromptWith(preamble, Some(c));
    var t := c.fileContents + COMPLETE_FILES;
    assert a[|a| - 1] == NO_FILES[|NO_FILES| - 1] == '.';
    assert b[|b| - 1] == t[|t| - 1] == COMPLETE_FILES[|COMPLETE_FILES| - 1] == ' ';
  }

  /** So the prompt tells whether files exist. */
  lemma PromptDistinguishesContext(c: FileManager.Context)
    ensures BuildSystemPrompt(None) != BuildSystemPrompt(Some(c))
  {
    BlocksDiffer(PREAMBLE, c);
  }

  /** The marker example shows both marker lines. */
  lemma ExampleShowsMarkers()
    ensures At(EXAMPLE, 0, FILE_MARKER) && At(EXAMPLE, |FILE_MARKER + EXAMPLE_BODY|, END_MARKER)
  {
    var head := FILE_MARKER + EXAMPLE_BODY;
    AtStart(FILE_MARKER, EXAMPLE_BODY);
    AtExtend(head, END_MARKER, 0, FILE_MARKER);
    AtSelf(END_MARKER);
    AtShift(head, END_MARKER, 0, END_MARKER);
  }

  /** What occurs in the middle part of a three-part text occurs in the text. */
  lemma InMiddle(x: string, m: string, y: string, k: nat, w: string)
    requires At(m, k, w)
    ensures At(x + m + y, |x| + k, w)
  {
    AtShift(x, m, k, w);
    AtExtend(x + m, y, |x| + k, w);
  }

  /** Text around the marker example still shows it and both marker lines. */
  lemma MarkersAmid(intro: string, guide: string)
    ensures IsInfix(EXAMPLE, intro + EXAMPLE + guide)
    ensures IsInfix(FILE_MARKER, intro + EXAMPLE + guide) && IsInfix(END_MARKER, intro + EXAMPLE + guide)
  {
    ExampleShowsMarkers();
    AtSelf(EXAMPLE);
    InMiddle(intro, EXAMPLE, guide, 0, EXAMPLE);
    InMiddle(intro, EXAMPLE, guide, 0, FILE_MARKER);
    InMiddle(intro, EXAMPLE, guide, |FILE_MARKER + EXAMPLE_BODY|, END_MARKER);
  }

  /** The preamble shows the model the marker example, with both marker lines. */
  lemma PreambleShowsMarkers()
    ensures IsInfix(EXAMPLE, PREAMBLE)
    ensures IsInfix(FILE_MARKER, PREAMBLE) && IsInfix(END_MARKER, PREAMBLE)
  {
    MarkersAmid(INTRO, GUIDE);
  }

  /** The prompt depends on the file names and contents of the context, not on its
      directory. */
  lemma PromptIgnoresDirectory(d1: string, d2: string, files: seq<string>, contents: string)
    ensures BuildSystemPrompt(Some(FileManager.Context(d1, files, contents)))
      == BuildSystemPrompt(Some(FileManager.Context(d2, files, contents)))
  {
  }
}
