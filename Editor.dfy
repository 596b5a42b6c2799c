/**
 * The formatting helpers of the Markdown textarea (components/Editor.tsx):
 * `insertFormat` wraps the selection in a prefix and a suffix, `insertBlock`
 * puts a prefix at the start of the caret's line. Each computes the new
 * text it passes to `onChange` and the selection it restores afterwards; the
 * model returns both, or nothing when the helper returns early.
 */
module Editor {

  import opened JsText
  import opened Wrappers

  /** The textarea's selectionStart and selectionEnd. */
  datatype Selection = Selection(start: nat, end: nat)

  /** The text handed to onChange and the selection range set afterwards. */
  datatype Edit = Edit(text: string, selStart: nat, selEnd: nat)

  /**
   * insertFormat (lines 36-61). `textarea` is the textarea's selection, or
   * None while the ref is unset. The new selection follows lines 55-59.
   */
  function InsertFormat(value: string, readOnly: bool, textarea: Option<Selection>, prefix: string, suffix: string): Option<Edit> {
    if readOnly || textarea.None? then None
    else
      var start := textarea.value.start;
      var end := textarea.value.end;
      var selected := Substring(value, start, end);
      var before := Substring(value, 0, start);
      var after := SubstringFrom(value, end);
      var newText := before + prefix + selected + suffix + after;
      if start == end then Some(Edit(newText, start + |prefix|, start + |prefix|))
      else Some(Edit(newText, start + |prefix|, end + |prefix|))
  }

  /** The start of the caret's line (lines 73-74): just after the last '\n' before `start`, or 0. */
  function LineStart(value: string, start: nat): (ls: nat)
    ensures start <= |value| ==> ls <= start
  {
    var lastNewLine := LastIndexOf(Substring(value, 0, start), '\n');
    if lastNewLine == -1 then 0 else lastNewLine + 1
  }

  /** insertBlock (lines 64-88): the prefix goes at the line start, the caret moves past it. */
  function InsertBlock(value: string, readOnly: bool, textarea: Option<Selection>, prefix: string): Option<Edit> {
    if readOnly || textarea.None? then None
    else
      var start := textarea.value.start;
      var lineStart := LineStart(value, start);
      var lineBefore := Substring(value, 0, lineStart);
      var lineRest := SubstringFrom(value, lineStart);
      var newText := lineBefore + prefix + lineRest;
      var newPos := start + |prefix|;
      Some(Edit(newText, newPos, newPos))
  }

  /** What a toolbar button does. */
  datatype Action = Format(prefix: string, suffix: string) | Block(blockPrefix: string)

  datatype ToolbarItem = Button(title: string, action: Action) | Divider

  /** toolbarItems (lines 90-106). */
  const Toolbar: seq<ToolbarItem> := [
    Button("Bold", Format("**", "**")),
    Button("Italic", Format("_", "_")),
    Button("Underline", Format("<u>", "</u>")),
    Divider,
    Button("Heading 1", Block("# ")),
    Button("Heading 2", Block("## ")),
    Button("Heading 3", Block("### ")),
    Divider,
    Button("Bulleted List", Block("- ")),
    Button("Numbered List", Block("1. ")),
    Button("Blockquote", Block("> ")),
    Divider,
    Button("Code Block", Format("```\n", "\n```")),
    Button("Link", Format("[", "](url)")),
    Button("Image", Format("![alt text](", ")"))
  ]

  /** Clicking a button runs its helper. */
  function Press(a: Action, value: string, readOnly: bool, textarea: Option<Selection>): Option<Edit> {
    match a
    case Format(p, s) => InsertFormat(value, readOnly, textarea, p, s)
    case Block(p) => InsertBlock(value, readOnly, textarea, p)
  }

  // ---------------------------------------------------------------------------
  // Properties. A textarea's selection always satisfies start <= end <= |value|.

  /** A read-only editor, or one whose textarea is not mounted, never calls onChange. */
  lemma InactiveHelpers(value: string, readOnly: bool, textarea: Option<Selection>, a: Action)
    requires readOnly || textarea.None?
    ensures Press(a, value, readOnly, textarea) == None
  {
  }

  /**
   * insertFormat splices the prefix and suffix around the selection: the text
   * grows by both, and what lies before and after the selection is kept.
   */
  lemma FormatSplice(value: string, sel: Selection, prefix: string, suffix: string)
    requires sel.start <= sel.end <= |value|
    ensures var r := InsertFormat(value, false, Some(sel), prefix, suffix);
      && r.Some?
      && r.value.text == value[..sel.start] + prefix + value[sel.start..sel.end] + suffix + value[sel.end..]
      && |r.value.text| == |value| + |prefix| + |suffix|
      && r.value.text[..sel.start] == value[..sel.start]
      && r.value.text[sel.end + |prefix| + |suffix|..] == value[sel.end..]
  {
    var t := InsertFormat(value, false, Some(sel), prefix, suffix).value.text;
    var mid := value[sel.start..sel.end];
    assert t == value[..sel.start] + prefix + mid + suffix + value[sel.end..];
    assert t[..sel.start] == value[..sel.start];
    assert t[sel.end + |prefix| + |suffix|..] == value[sel.end..];
  }

  /**
   * The selection after insertFormat: for a caret, between the prefix and
   * the suffix; otherwise exactly the originally selected text.
   */
  lemma FormatSelection(value: string, sel: Selection, prefix: string, suffix: string)
    requires sel.start <= sel.end <= |value|
    ensures var e := InsertFormat(value, false, Some(sel), prefix, suffix).value;
      && e.selStart == sel.start + |prefix| <= e.selEnd <= |e.text|
      && (sel.start == sel.end ==>
            e.selEnd == e.selStart
            && e.text[sel.start..e.selStart] == prefix
            && e.text[e.selStart..e.selStart + |suffix|] == suffix)
      && (sel.start < sel.end ==>
            e.selEnd == sel.end + |prefix|
            && e.text[e.selStart..e.selEnd] == value[sel.start..sel.end])
  {
    FormatSplice(value, sel, prefix, suffix);
    var e := InsertFormat(value, false, Some(sel), prefix, suffix).value;
    var a := value[..sel.start];
    var mid := value[sel.start..sel.end];
    var z := value[sel.end..];
    assert e.text == a + prefix + mid + suffix + z;
    var p := sel.start + |prefix|;
    assert e.text[sel.start..p] == prefix;
    assert e.text[p..p + |mid|] == mid;
    assert e.text[p + |mid|..p + |mid| + |suffix|] == suffix;
  }

  /** The line start is the position after the last '\n' before the caret, or 0 when there is none. */
  lemma LineStartIsLineStart(value: string, start: nat)
    requires start <= |value|
    ensures var ls := LineStart(value, start);
      && ls <= start
      && (ls == 0 || value[ls - 1] == '\n')
      && forall k :: ls <= k < start ==> value[k] != '\n'
  {
    var before := Substring(value, 0, start);
    assert before == value[..start];
    var l := LastIndexOf(before, '\n');
    forall k | l < k < start
      ensures value[k] != '\n'
    {
      assert before[k] == value[k];
    }
  }

  /**
   * insertBlock inserts the prefix at the line start and changes nothing
   * else; the caret moves by the prefix and stays before the same character.
   */
  lemma BlockSplice(value: string, sel: Selection, prefix: string)
    requires sel.start <= |value|
    ensures var e := InsertBlock(value, false, Some(sel), prefix).value;
      var ls := LineStart(value, sel.start);
      && e.text == value[..ls] + prefix + value[ls..]
      && |e.text| == |value| + |prefix|
      && e.selStart == e.selEnd == sel.start + |prefix|
      && (sel.start < |value| ==> e.text[e.selStart] == value[sel.start])
      && e.text[..e.selStart] == value[..ls] + prefix + value[ls..sel.start]
  {
    var ls := LineStart(value, sel.start);
    var e := InsertBlock(value, false, Some(sel), prefix).value;
    assert e.text == value[..ls] + prefix + value[ls..];
    assert value[ls..] == value[ls..sel.start] + value[sel.start..];
    assert e.text == (value[..ls] + prefix + value[ls..sel.start]) + value[sel.start..];
  }

  /**
   * insertBlock does not look for an existing prefix: pressed twice (the
   * second time with the caret it left), a prefix without a line break is
   * inserted twice at the same line start.
   */
  lemma BlockTwice(value: string, sel: Selection, prefix: string)
    requires sel.start <= |value| && forall k :: 0 <= k < |prefix| ==> prefix[k] != '\n'
    ensures var e := InsertBlock(value, false, Some(sel), prefix).value;
      var e2 := InsertBlock(e.text, false, Some(Selection(e.selStart, e.selEnd)), prefix).value;
      var ls := LineStart(value, sel.start);
      e2.text == value[..ls] + prefix + prefix + value[ls..]
  {
    var ls := LineStart(value, sel.start);
    var e := InsertBlock(value, false, Some(sel), prefix).value;
    BlockSplice(value, sel, prefix);
    var t := e.text;
    var c := e.selStart;
    SecondLineStart(value, sel, prefix);
    BlockSplice(t, Selection(c, c), prefix);
    InsertTwice(value[..ls], prefix, value[ls..], t);
    assert value[..ls] + value[ls..] == value;
  }

  /** After insertBlock, the caret's line still starts where it did. */
  lemma SecondLineStart(value: string, sel: Selection, prefix: string)
    requires sel.start <= |value| && forall k :: 0 <= k < |prefix| ==> prefix[k] != '\n'
    ensures var e := InsertBlock(value, false, Some(sel), prefix).value;
      e.selStart <= |e.text| && LineStart(e.text, e.selStart) == LineStart(value, sel.start)
  {
    var ls := LineStart(value, sel.start);
    var e := InsertBlock(value, false, Some(sel), prefix).value;
    BlockSplice(value, sel, prefix);
    LineStartIsLineStart(value, sel.start);
    var t := e.text;
    var c := e.selStart;
    LineStartIsLineStart(t, c);
    LineStartUnique(t, c, ls, LineStart(t, c), value, prefix, sel.start);
  }

  /** Inserting p right after a in a + p + b gives a + p + p + b. */
  lemma InsertTwice(a: string, p: string, b: string, t: string)
    requires t == a + p + b
    ensures t[..|a|] + p + t[|a|..] == a + p + p + b
  {
    assert t[..|a|] == a;
    assert t[|a|..] == p + b;
  }

  /** In the first text the line start cannot move: the prefix and the rest of the line hold no '\n'. */
  lemma LineStartUnique(t: string, c: nat, ls: nat, ls2: nat, value: string, prefix: string, start: nat)
    requires ls <= start <= |value| && c <= |t|
    requires t[..c] == value[..ls] + prefix + value[ls..start]
    requires ls == 0 || value[ls - 1] == '\n'
    requires forall k :: ls <= k < start ==> value[k] != '\n'
    requires forall k :: 0 <= k < |prefix| ==> prefix[k] != '\n'
    requires ls2 <= c && (ls2 == 0 || t[ls2 - 1] == '\n') && forall k :: ls2 <= k < c ==> t[k] != '\n'
    ensures ls2 == ls
  {
    assert c == ls + |prefix| + (start - ls);
    forall k | ls <= k < c
      ensures t[k] != '\n'
    {
      assert t[k] == t[..c][k];
      if k < ls + |prefix| {
        assert t[..c][k] == prefix[k - ls];
      } else {
        assert t[..c][k] == value[k - |prefix|];
      }
    }
    if ls > 0 {
      assert t[ls - 1] == t[..c][ls - 1] == value[ls - 1];
    }
  }

  /** The Bold button wraps the selection in "**". */
  lemma BoldButton(value: string, sel: Selection)
    requires sel.start <= sel.end <= |value|
    ensures Toolbar[0].Button? && Toolbar[0].title == "Bold"
    ensures Press(Toolbar[0].action, value, false, Some(sel)).value.text ==
      value[..sel.start] + "**" + value[sel.start..sel.end] + "**" + value[sel.end..]
  {
    FormatSplice(value, sel, "**", "**");
  }

  /** The Italic button wraps the selection in "_". */
  lemma ItalicButton(value: string, sel: Selection)
    requires sel.start <= sel.end <= |value|
    ensures Toolbar[1].Button? && Toolbar[1].title == "Italic"
    ensures Press(Toolbar[1].action, value, false, Some(sel)).value.text ==
      value[..sel.start] + "_" + value[sel.start..sel.end] + "_" + value[sel.end..]
  {
    FormatSplice(value, sel, "_", "_");
  }

  /** The Heading 1 button puts "# " at the start of the caret's line. */
  lemma HeadingButton(value: string, sel: Selection)
    requires sel.start <= |value|
    ensures Toolbar[4].Button? && Toolbar[4].title == "Heading 1"
    ensures var ls := LineStart(value, sel.start);
      Press(Toolbar[4].action, value, false, Some(sel)).value.text == value[..ls] + "# " + value[ls..]
  {
    BlockSplice(value, sel, "# ");
  }

  /** Every block prefix of the toolbar ends in a space and holds no line break. */
  lemma ToolbarBlocks()
    ensures forall k :: 0 <= k < |Toolbar| && Toolbar[k].Button? && Toolbar[k].action.Block? ==>
      var p := Toolbar[k].action.blockPrefix;
      |p| > 0 && p[|p| - 1] == ' ' && forall j :: 0 <= j < |p| ==> p[j] != '\n'
  {
  }
}
