/**
 * The controller state of the application component (App.tsx): which mode
 * and layout are shown, the Markdown buffer of editor mode, the rich-text
 * buffer of converter mode, the Markdown generated from it, and whether an
 * auto-format request is in flight.
 *
 * The derive effect (App.tsx:44-57) is React's: it runs after a render whose
 * dependencies `richTextContent` and `mode` differ from those of its last
 * run. The model keeps those dependencies as `derivedFor` and runs the
 * effect in `RunDeriveEffect`. The Turndown converter is a parameter: whether the
 * global `TurndownService` is present, and the conversion it would perform.
 *
 * `AppState` and the functions over it are the specification; the class
 * `Controller` updates the same fields in place and is proved to follow it.
 */
module App {

  import opened Types
  import opened JsText
  import opened Wrappers

  const DefaultMarkdown: string :=
    "# Welcome to ConvertMD\n\nStart typing on the left to see the **live preview** on the right.\n\n"
    + "- Use the **Auto-Format** button to magically structure your text.\n"
    + "- **Switch Modes** to use the Rich Text visual editor.\n"
    + "- **Import** text or DOCX files to edit them.\n\n"
    + "```javascript\nconsole.log(\"Happy Writing!\");\n```\n"

  const DefaultRichText: string :=
    "<p>Type in <b>Rich Text</b> here.</p><ul><li>We will convert it</li><li>to Markdown automatically.</li></ul>"

  /** What the derive effect shows while the converter script has not loaded. */
  const LoadingText: string := "Loading converter..."

  /** The name under which the export is downloaded. */
  const DownloadName: string := "document.md"


  /** `window.TurndownService`: whether it is present, and what its `turndown` returns. */
  datatype Converter = Converter(loaded: bool, turndown: string -> string)

  /** The dependencies of the derive effect at one of its runs. */
  datatype Deps = Deps(rich: string, mode: AppMode)

  datatype AppState = AppState(
    mode: AppMode,
    layout: LayoutMode,
    isProcessing: bool,
    markdownContent: string,
    richTextContent: string,
    generatedMarkdown: string,
    derivedFor: Option<Deps>)   // None until the first commit

  /** What the remote auto-format call came back with. */
  datatype Outcome = Formatted(text: string) | Failed

  /** The state of the first render (App.tsx:32-41), before any effect has run. */
  function Initial(): AppState {
    AppState(MarkdownEditor, SideBySide, false, DefaultMarkdown, DefaultRichText, "", None)
  }

  /** The derive effect, run if its dependencies changed since its last run. */
  function Derived(st: AppState, conv: Converter): (r: AppState)
    ensures r.derivedFor == Some(Deps(st.richTextContent, st.mode))
    ensures r == st.(derivedFor := r.derivedFor, generatedMarkdown := r.generatedMarkdown)
  {
    var deps := Deps(st.richTextContent, st.mode);
    if st.derivedFor == Some(deps) then st
    else if st.mode == TextConverter then
      st.(derivedFor := Some(deps),
          generatedMarkdown := if conv.loaded then conv.turndown(st.richTextContent) else LoadingText)
    else st.(derivedFor := Some(deps))
  }

  /**
   * What the input pane (App.tsx:147-161) is bound to: the Markdown textarea
   * in editor mode, the rich-text surface in converter mode.
   */
  function InputPane(st: AppState): string {
    if st.mode == MarkdownEditor then st.markdownContent else st.richTextContent
  }

  /**
   * The Markdown the output pane (App.tsx:171-182) shows: the live preview of
   * the buffer in editor mode, the generated Markdown in converter mode.
   */
  function OutputPane(st: AppState): string {
    if st.mode == MarkdownEditor then st.markdownContent else st.generatedMarkdown
  }

  /** The import handler and editor-mode target (App.tsx:59-66): the buffer of the current mode. */
  function WithActiveContent(st: AppState, content: string): AppState {
    if st.mode == MarkdownEditor then st.(markdownContent := content)
    else st.(richTextContent := content)
  }

  /**
   * The first half of handleMagicConvert (App.tsx:70-75): nothing outside
   * editor mode or for a buffer that trims to nothing; otherwise the buffer
   * is sent and the processing flag set.
   */
  function MagicConvertStarted(st: AppState): (AppState, Option<string>) {
    if st.mode != MarkdownEditor || IsBlank(st.markdownContent) then (st, None)
    else (st.(isProcessing := true), Some(st.markdownContent))
  }

  /** The second half (App.tsx:76-83): the result replaces the buffer; either way processing ends. */
  function MagicConvertFinished(st: AppState, outcome: Outcome): AppState {
    match outcome
    case Formatted(text) => st.(markdownContent := text, isProcessing := false)
    case Failed => st.(isProcessing := false)
  }

  /** handleMagicConvert with no other event between its two halves. */
  function MagicConverted(st: AppState, outcome: Outcome): AppState {
    var (started, request) := MagicConvertStarted(st);
    if request.Some? then MagicConvertFinished(started, outcome) else started
  }

  /** handleClear (App.tsx:86-93), with the answer to the confirmation dialog. */
  function Cleared(st: AppState, confirmed: bool): AppState {
    if !confirmed then st
    else
      var cleared := WithActiveContent(st, "");
      if st.mode == TextConverter then cleared.(generatedMarkdown := "") else cleared
  }

  /** The text copy and download export (App.tsx:96-98, 106-108). */
  function ExportText(st: AppState): string {
    if st.mode == MarkdownEditor then st.markdownContent else st.generatedMarkdown
  }

  // ---------------------------------------------------------------------------
  // Properties.

  /** The application starts in editor mode, side by side, idle, with the default buffers and no output. */
  lemma InitialCommit(conv: Converter)
    ensures var st := Derived(Initial(), conv);
      && st.mode == MarkdownEditor && st.layout == SideBySide && !st.isProcessing
      && st.markdownContent == DefaultMarkdown && st.richTextContent == DefaultRichText
      && st.generatedMarkdown == ""
  {
  }

  /**
   * In converter mode, a commit after the rich text or the mode changed sets
   * the output to the conversion of the rich text, or to the loading notice
   * when the converter is missing.
   */
  lemma CommitDerives(st: AppState, conv: Converter)
    requires st.mode == TextConverter && st.derivedFor != Some(Deps(st.richTextContent, st.mode))
    ensures Derived(st, conv).generatedMarkdown ==
      if conv.loaded then conv.turndown(st.richTextContent) else LoadingText
  {
  }

  /** With its dependencies unchanged the effect does not run; in editor mode it never touches the output. */
  lemma CommitOnlyOnChange(st: AppState, conv: Converter)
    ensures st.derivedFor == Some(Deps(st.richTextContent, st.mode)) ==> Derived(st, conv) == st
    ensures st.mode == MarkdownEditor ==> Derived(st, conv).generatedMarkdown == st.generatedMarkdown
  {
  }

  /**
   * A second commit changes nothing, even once the converter has loaded: the
   * loading notice stays until the rich text or the mode changes again.
   */
  lemma CommitSettles(st: AppState, conv: Converter, later: Converter)
    ensures Derived(Derived(st, conv), later) == Derived(st, conv)
  {
  }

  /** Switching from editor mode to converter mode converts the current rich text at the next commit. */
  lemma SwitchToConverter(st: AppState, conv: Converter)
    requires st.mode == MarkdownEditor && st.derivedFor == Some(Deps(st.richTextContent, st.mode)) && conv.loaded
    ensures Derived(st.(mode := TextConverter), conv).generatedMarkdown == conv.turndown(st.richTextContent)
  {
  }

  /**
   * An import (or a clear) shows up in the input pane of the current mode;
   * the buffer of the other mode, the output, the mode and the rest of the
   * state are left alone.
   */
  lemma ActiveContentRouting(st: AppState, content: string)
    ensures var r := WithActiveContent(st, content);
      && InputPane(r) == content
      && r.mode == st.mode && r.layout == st.layout && r.isProcessing == st.isProcessing
      && r.generatedMarkdown == st.generatedMarkdown && r.derivedFor == st.derivedFor
      && (st.mode == MarkdownEditor ==> r.richTextContent == st.richTextContent)
      && (st.mode == TextConverter ==> r.markdownContent == st.markdownContent)
  {
  }

  /** Writing back what the input pane shows changes nothing, and a second write replaces the first. */
  lemma ActiveContentOverwrites(st: AppState, a: string, b: string)
    ensures WithActiveContent(st, InputPane(st)) == st
    ensures WithActiveContent(WithActiveContent(st, a), b) == WithActiveContent(st, b)
  {
  }

  /** Outside editor mode, or for a blank buffer, auto-format sends nothing and changes nothing. */
  lemma MagicConvertGuard(st: AppState, outcome: Outcome)
    ensures MagicConvertStarted(st).1.None? <==> st.mode != MarkdownEditor || IsBlank(st.markdownContent)
    ensures MagicConvertStarted(st).1.None? ==> MagicConvertStarted(st).0 == st && MagicConverted(st, outcome) == st
    ensures MagicConvertStarted(st).1.Some? ==> MagicConvertStarted(st).1.value == st.markdownContent
  {
  }

  /**
   * When auto-format runs, a result replaces the buffer and a failure leaves
   * it; processing is over in both cases and nothing else changes.
   */
  lemma MagicConvertOutcome(st: AppState, outcome: Outcome)
    requires st.mode == MarkdownEditor && !IsBlank(st.markdownContent)
    ensures MagicConvertStarted(st).0.isProcessing
    ensures MagicConverted(st, outcome) ==
      st.(isProcessing := false,
          markdownContent := if outcome.Formatted? then outcome.text else st.markdownContent)
  {
  }

  /** Clearing without confirmation changes nothing; with it, the active buffer and, in converter mode, the output are emptied. */
  lemma ClearCases(st: AppState)
    ensures Cleared(st, false) == st
    ensures Cleared(st, true) ==
      if st.mode == MarkdownEditor then st.(markdownContent := "")
      else st.(richTextContent := "", generatedMarkdown := "")
  {
  }

  /**
   * In converter mode a confirmed clear is followed by the derive effect, so
   * the output only stays empty when the rich text was empty already;
   * otherwise it becomes the conversion of "" or the loading notice.
   */
  lemma ClearThenCommit(st: AppState, conv: Converter)
    requires st.mode == TextConverter && st.derivedFor == Some(Deps(st.richTextContent, st.mode))
    ensures Derived(Cleared(st, true), conv).generatedMarkdown ==
      if st.richTextContent == "" then ""
      else if conv.loaded then conv.turndown("") else LoadingText
  {
  }

  /**
   * Copy and download export exactly the Markdown the output pane shows. So
   * after an import in editor mode they export the imported text, and in
   * converter mode an import changes the export only once the derive effect
   * has run. A confirmed clear empties the export, and in editor mode it
   * stays empty through the next commit. In converter mode it is empty only
   * until the derive effect runs for the cleared rich text: with the
   * converter not loaded yet, the export is then the loading notice.
   */
  lemma ExportFollowsMode(st: AppState, content: string, conv: Converter)
    ensures ExportText(st) == OutputPane(st)
    ensures st.mode == MarkdownEditor ==> ExportText(WithActiveContent(st, content)) == content
    ensures st.mode == TextConverter ==> ExportText(WithActiveContent(st, content)) == st.generatedMarkdown
    ensures ExportText(Cleared(st, true)) == ""
    ensures st.mode == MarkdownEditor ==> ExportText(Derived(Cleared(st, true), conv)) == ""
    ensures st.mode == TextConverter && st.derivedFor == Some(Deps(st.richTextContent, st.mode))
              && st.richTextContent != "" && !conv.loaded
            ==> ExportText(Derived(Cleared(st, true), conv)) == LoadingText
  {
  }

  /**
   * While auto-format waits, only its own button (Toolbar.tsx:196) and the
   * Markdown editor's formatting buttons and textarea (Editor.tsx:125, 152)
   * are disabled; Clear, Import and the mode switch stay usable. The result
   * overwrites the buffer whatever happened meanwhile: a clear confirmed during the wait is lost,
   * and after a switch to converter mode the result lands in the hidden
   * Markdown buffer while the input pane keeps the rich text.
   */
  lemma FormatOverwritesInterleaved(st: AppState, text: string)
    requires st.mode == MarkdownEditor && !IsBlank(st.markdownContent)
    ensures var started := MagicConvertStarted(st).0;
      MagicConvertFinished(Cleared(started, true), Formatted(text)).markdownContent == text
    ensures var switched := MagicConvertFinished(MagicConvertStarted(st).0.(mode := TextConverter), Formatted(text));
      switched.markdownContent == text && InputPane(switched) == st.richTextContent
  {
  }

  // ---------------------------------------------------------------------------
  // The component, updating its fields in place.

  class Controller {
    var mode: AppMode
    var layout: LayoutMode
    var isProcessing: bool
    var markdownContent: string
    var richTextContent: string
    var generatedMarkdown: string
    var derivedFor: Option<Deps>

    function State(): AppState
      reads this
    {
      AppState(mode, layout, isProcessing, markdownContent, richTextContent, generatedMarkdown, derivedFor)
    }

    /** The first render and its commit. */
    constructor (conv: Converter)
      ensures State() == Derived(Initial(), conv)
    {
      mode := MarkdownEditor;
      layout := SideBySide;
      isProcessing := false;
      markdownContent := DefaultMarkdown;
      richTextContent := DefaultRichText;
      generatedMarkdown := "";
      derivedFor := Some(Deps(DefaultRichText, MarkdownEditor));
    }

    /** React's commit phase: the derive effect, if its dependencies changed. */
    method RunDeriveEffect(conv: Converter)
      modifies this
      ensures State() == Derived(old(State()), conv)
    {
      var deps := Deps(richTextContent, mode);
      if derivedFor == Some(deps) {
        return;
      }
      derivedFor := Some(deps);
      if mode == TextConverter {
        if conv.loaded {
          generatedMarkdown := conv.turndown(richTextContent);
        } else {
          generatedMarkdown := LoadingText;
        }
      }
    }

    /** The mode toggle (setMode). */
    method SetMode(m: AppMode)
      modifies this
      ensures State() == old(State()).(mode := m)
    {
      mode := m;
    }

    /** The layout toggle (setLayout). */
    method SetLayout(l: LayoutMode)
      modifies this
      ensures State() == old(State()).(layout := l)
    {
      layout := l;
    }

    /** The Markdown textarea of editor mode (setMarkdownContent). */
    method EditMarkdown(text: string)
      modifies this
      ensures State() == old(State()).(markdownContent := text)
    {
      markdownContent := text;
    }

    /** The rich-text editor's onChange (setRichTextContent). */
    method EditRichText(html: string)
      modifies this
      ensures State() == old(State()).(richTextContent := html)
    {
      richTextContent := html;
    }

    /** The output textarea of converter mode (setGeneratedMarkdown). */
    method EditGenerated(text: string)
      modifies this
      ensures State() == old(State()).(generatedMarkdown := text)
    {
      generatedMarkdown := text;
    }

    method SetActiveContent(content: string)
      modifies this
      ensures State() == WithActiveContent(old(State()), content)
    {
      if mode == MarkdownEditor {
        markdownContent := content;
      } else {
        richTextContent := content;
      }
    }

    /** handleMagicConvert up to the await: the text sent to the formatter, if any. */
    method StartMagicConvert() returns (request: Option<string>)
      modifies this
      ensures (State(), request) == MagicConvertStarted(old(State()))
    {
      if mode != MarkdownEditor {
        return None;
      }
      var contentToProcess := markdownContent;
      if IsBlank(contentToProcess) {
        return None;
      }
      isProcessing := true;
      request := Some(contentToProcess);
    }

    /** handleMagicConvert after the await. */
    method FinishMagicConvert(outcome: Outcome)
      modifies this
      ensures State() == MagicConvertFinished(old(State()), outcome)
    {
      if outcome.Formatted? {
        markdownContent := outcome.text;
      }
      isProcessing := false;
    }

    method HandleClear(confirmed: bool)
      modifies this
      ensures State() == Cleared(old(State()), confirmed)
    {
      if confirmed {
        SetActiveContent("");
        if mode == TextConverter {
          generatedMarkdown := "";
        }
      }
    }

    /** handleCopy: the text written to the clipboard. */
    method HandleCopy() returns (text: string)
      ensures text == ExportText(State())
    {
      text := if mode == MarkdownEditor then markdownContent else generatedMarkdown;
    }

    /** handleDownload: the file name and the text of the downloaded file. */
    method HandleDownload() returns (name: string, text: string)
      ensures name == DownloadName && text == ExportText(State())
    {
      name := DownloadName;
      text := if mode == MarkdownEditor then markdownContent else generatedMarkdown;
    }
  }
}
