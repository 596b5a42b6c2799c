/**
 * Concrete runs of single passes of formatMarkdown, worked out from the
 * closed forms proved in FormatProperties. They show the consequences of
 * backtracking that the comments of services/formatService.ts do not
 * mention.
 */
module FormatExamples {

  import opened JsText
  import opened Wrappers
  import opened FormatService
  import opened FormatProperties

  /** Pass 1 spaces a bare header: "#Title" gives "# Title". */
  lemma HeaderSpaced(s: string)
    requires s == "#Title"
    ensures Replace(HeaderSpace, s) == "# Title"
  {
    assert s[0] == '#' && s[1] == 'T';
    assert Run(s, 1, HashSign) == 0;
    assert Run(s, 0, HashSign) == 1;
    assert HeaderGap(s, 0) == Some(1);
    assert NoTerminator(s, 0, |s|);
    HeaderLine(s);
    assert s[..1] + " " + s[1..] == "# Title";
  }

  /** Pass 1 on "###Sub" gives "### Sub". */
  lemma SubheaderSpaced(s: string)
    requires s == "###Sub"
    ensures Replace(HeaderSpace, s) == "### Sub"
  {
    assert forall k :: 0 <= k < 3 ==> s[k] == '#';
    assert s[3] == 'S';
    RunExact(s, 0, 3, HashSign);
    assert HeaderGap(s, 0) == Some(3);
    assert NoTerminator(s, 0, |s|);
    HeaderLine(s);
    assert s[..3] + " " + s[3..] == "### Sub";
  }

  /** A single '#' already followed by a space is left alone. */
  lemma HeaderAlreadySpaced(s: string)
    requires s == "# T"
    ensures Replace(HeaderSpace, s) == "# T"
  {
    assert s[0] == '#' && s[1] == ' ';
    assert Run(s, 1, HashSign) == 0;
    assert Run(s, 0, HashSign) == 1;
    assert HeaderGap(s, 0) == None;
    assert NoTerminator(s, 0, |s|);
    HeaderLine(s);
  }

  /**
   * "## T" is not left alone: `#{1,6}` gives back its last '#', which is
   * not a space, so the space goes between the two '#'s.
   */
  lemma HeaderBacktracks(s: string)
    requires s == "## T"
    ensures Replace(HeaderSpace, s) == "# # T"
  {
    assert s[0] == '#' && s[1] == '#' && s[2] == ' ';
    assert Run(s, 2, HashSign) == 0;
    assert Run(s, 0, HashSign) == 2;
    assert HeaderGap(s, 0) == Some(1);
    assert NoTerminator(s, 0, |s|);
    HeaderLine(s);
    assert s[..1] + " " + s[1..] == "# # T";
  }

  /** Seven '#' are not left alone: a space goes after the sixth. */
  lemma HeaderSeven(s: string)
    requires s == "#######x"
    ensures Replace(HeaderSpace, s) == "###### #x"
  {
    assert forall k :: 0 <= k < 7 ==> s[k] == '#';
    assert s[7] == 'x';
    RunExact(s, 0, 7, HashSign);
    assert HeaderGap(s, 0) == Some(6);
    assert NoTerminator(s, 0, |s|);
    HeaderLine(s);
    assert s[..6] + " " + s[6..] == "###### #x";
  }

  /** A spaced six-level header is not left alone either: "###### Six" gives "##### # Six". */
  lemma HeaderSix(s: string)
    requires s == "###### Six"
    ensures Replace(HeaderSpace, s) == "##### # Six"
  {
    assert forall k :: 0 <= k < 6 ==> s[k] == '#';
    assert s[6] == ' ';
    RunExact(s, 0, 6, HashSign);
    assert HeaderGap(s, 0) == Some(5);
    assert NoTerminator(s, 0, |s|);
    HeaderLine(s);
    assert s[..5] + " " + s[5..] == "##### # Six";
  }

  /** Pass 1 on "##T" gives "## T". */
  lemma DoubleHashSpaced(s: string)
    requires s == "##T"
    ensures Replace(HeaderSpace, s) == "## T"
  {
    assert s[0] == '#' && s[1] == '#' && s[2] == 'T';
    assert Run(s, 2, HashSign) == 0;
    assert Run(s, 0, HashSign) == 2;
    assert HeaderGap(s, 0) == Some(2);
    assert NoTerminator(s, 0, |s|);
    HeaderLine(s);
    assert s[..2] + " " + s[2..] == "## T";
  }

  /** Pass 1 is not idempotent: on its own output "## T" it splits the '#'s again. */
  lemma HeaderNotIdempotent()
    ensures Replace(HeaderSpace, Replace(HeaderSpace, "##T")) != Replace(HeaderSpace, "##T")
  {
    DoubleHashSpaced("##T");
    HeaderBacktracks("## T");
    assert "# # T"[2] != "## T"[2];
  }

  /** Pass 2 on one line: after w leading spaces, a bare bullet marker gets one space. */
  lemma BulletAfterIndent(s: string, w: nat)
    requires NoTerminator(s, 0, |s|) && w < |s|
    requires forall k :: 0 <= k < w ==> s[k] == ' '
    requires IsBulletMarker(s[w]) && NotFollowedBy(s, w + 1, ' ')
    ensures Replace(BulletSpace, s) == s[..w + 1] + " " + s[w + 1..]
  {
    RunExact(s, 0, w, AnySpace);
    assert BulletGap(s, 0) == Some(w + 1);
    BulletLine(s);
  }

  /** Pass 2 keeps the indentation: "  *Item" gives "  * Item". */
  lemma BulletIndented(s: string)
    requires s == "  *Item"
    ensures Replace(BulletSpace, s) == "  * Item"
  {
    assert s[0] == ' ' && s[1] == ' ' && s[2] == '*' && s[3] == 'I';
    BulletAfterIndent(s, 2);
    assert s[..3] == "  *" && s[3..] == "Item";
  }

  /** Pass 2 leaves an already spaced bullet alone. */
  lemma BulletAlreadySpaced(s: string)
    requires s == "- Item"
    ensures Replace(BulletSpace, s) == "- Item"
  {
    assert s[0] == '-' && s[1] == ' ';
    assert Run(s, 0, AnySpace) == 0;
    assert BulletGap(s, 0) == None;
    assert NoTerminator(s, 0, |s|);
    BulletLine(s);
  }

  /** Pass 3: "1.First" gives "1. First". */
  lemma NumberSpaced(s: string)
    requires s == "1.First"
    ensures Replace(NumberSpace, s) == "1. First"
  {
    assert s[0] == '1' && s[1] == '.' && s[2] == 'F';
    assert Run(s, 0, AnySpace) == 0;
    assert Run(s, 1, Digit) == 0;
    assert Run(s, 0, Digit) == 1;
    assert DigitGap(s, 0) == Some(2);
    assert NumberGap(s, 0) == Some(2);
    assert NoTerminator(s, 0, |s|);
    NumberLine(s);
    assert s[..2] + " " + s[2..] == "1. First";
  }

  /** Pass 3 leaves "1. First" alone. */
  lemma NumberAlreadySpaced(s: string)
    requires s == "1. First"
    ensures Replace(NumberSpace, s) == "1. First"
  {
    assert s[0] == '1' && s[1] == '.' && s[2] == ' ';
    assert Run(s, 0, AnySpace) == 0;
    assert Run(s, 1, Digit) == 0;
    assert Run(s, 0, Digit) == 1;
    assert DigitGap(s, 0) == None;
    assert NumberGap(s, 0) == None;
    assert NoTerminator(s, 0, |s|);
    NumberLine(s);
  }

  /** Pass 7 spaces only the first '>': ">>x" gives "> >x". */
  lemma QuoteNested(s: string)
    requires s == ">>x"
    ensures Replace(QuoteSpace, s) == "> >x"
  {
    assert s[0] == '>' && s[1] == '>';
    assert QuoteGap(s, 0) == Some(1);
    assert NoTerminator(s, 0, |s|);
    QuoteLine(s);
    assert s[..1] + " " + s[1..] == "> >x";
  }

  /** Pass 8: a header right after a text line gets a blank line before it. */
  lemma BlankBeforeHeading()
    ensures Replace(BlankBeforeHeader, "Some text\n# Header") == "Some text\n\n# Header"
  {
    var a, b := "Some text", "# Header";
    assert b[0] == '#' && b[1] == ' ';
    assert Run(b, 1, HashSign) == 0;
    assert Run(b, 0, HashSign) == 1;
    assert HeaderOpener(b);
    BlankHeaderLines(a, b);
    assert a + "\n" + b == "Some text\n# Header";
    assert a + "\n\n" + b == "Some text\n\n# Header";
  }

  /** Pass 8 does not fire before the first line. */
  lemma NoBlankBeforeFirstHeading()
    ensures Replace(BlankBeforeHeader, "# Header\nSome text") == "# Header\nSome text"
  {
    var a, b := "# Header", "Some text";
    assert b[0] == 'S';
    assert Run(b, 0, HashSign) == 0;
    assert !HeaderOpener(b);
    BlankHeaderLines(a, b);
    assert a + "\n" + b == "# Header\nSome text";
  }

  /** Pass 9 separates consecutive list items: "- a\n- b" gives "- a\n\n- b". */
  lemma BlankBetweenItems()
    ensures Replace(BlankBeforeBullet, "- a\n- b") == "- a\n\n- b"
  {
    var a, b := "- a", "- b";
    assert BulletOpener(b);
    BlankBulletLines(a, b);
    assert a + "\n" + b == "- a\n- b";
    assert a + "\n\n" + b == "- a\n\n- b";
  }

  /** Pass 9 does not fire before an ordered item. */
  lemma NoBlankBeforeOrdered()
    ensures Replace(BlankBeforeBullet, "Intro\n1. x") == "Intro\n1. x"
  {
    var a, b := "Intro", "1. x";
    assert !BulletOpener(b);
    BlankBulletLines(a, b);
    assert a + "\n" + b == "Intro\n1. x";
  }

  /** Pass 4 tightens padded bold: "a ** bold ** b" gives "a **bold** b". */
  lemma BoldSqueezed(s: string)
    requires s == "a ** bold ** b"
    ensures Replace(BoldSqueeze, s) == "a **bold** b"
  {
    var d := Delimiter(BoldSqueeze);
    assert s[2] == '*' && s[3] == '*' && s[4] == ' ' && s[5] == 'b' && s[9] == ' ' && s[10] == '*' && s[11] == '*';
    assert DelimAt(s, 2, d) && DelimAt(s, 10, d);
    assert NoTerminator(s, 5, 9);
    forall k | 5 < k < 9
      ensures !ClosesAt(s, k, d, false)
    {
      assert s[k] != ' ';
    }
    SqueezeOnce(BoldSqueeze, s, 2, 5, 9, 10);
    assert d.Text() == "**";
    assert s[..2] == "a " && s[5..9] == "bold" && s[12..] == " b";
  }

  /**
   * The group may hold spaces: "** a b **" gives "**a b**", since the
   * space inside is not followed by "**".
   */
  lemma BoldWordsSqueezed(s: string)
    requires s == "** a b **"
    ensures Replace(BoldSqueeze, s) == "**a b**"
  {
    var d := Delimiter(BoldSqueeze);
    assert s[0] == '*' && s[1] == '*' && s[2] == ' ' && s[3] == 'a' && s[4] == ' ' && s[5] == 'b';
    assert s[6] == ' ' && s[7] == '*' && s[8] == '*';
    assert DelimAt(s, 0, d) && DelimAt(s, 7, d);
    assert NoTerminator(s, 3, 6);
    assert Run(s, 4, Blank) == 1;
    assert !ClosesAt(s, 4, d, false) && !ClosesAt(s, 5, d, false);
    SqueezeOnce(BoldSqueeze, s, 0, 3, 6, 7);
    assert d.Text() == "**";
    assert s[..0] == [] && s[3..6] == "a b" && s[9..] == [];
  }

  /** Pass 5 tightens padded underscores: "__ x __" gives "__x__". */
  lemma UnderscoreSqueezed(s: string)
    requires s == "__ x __"
    ensures Replace(UnderscoreSqueeze, s) == "__x__"
  {
    var d := Delimiter(UnderscoreSqueeze);
    assert s[0] == '_' && s[1] == '_' && s[2] == ' ' && s[3] == 'x' && s[4] == ' ' && s[5] == '_' && s[6] == '_';
    assert DelimAt(s, 0, d) && DelimAt(s, 5, d);
    SqueezeOnce(UnderscoreSqueeze, s, 0, 3, 4, 5);
    assert s[..0] + (d.Text() + s[3..4] + d.Text()) + s[7..] == "__x__";
  }

  /** Pass 6 tightens a padded single '*': "a * x * b" gives "a *x* b". */
  lemma ItalicSqueezed(s: string)
    requires s == "a * x * b"
    ensures Replace(ItalicSqueeze, s) == "a *x* b"
  {
    var d := Delimiter(ItalicSqueeze);
    assert s[1] == ' ' && s[2] == '*' && s[3] == ' ' && s[4] == 'x' && s[5] == ' ' && s[6] == '*' && s[7] == ' ';
    assert DelimAt(s, 2, d) && DelimAt(s, 6, d);
    SqueezeOnce(ItalicSqueeze, s, 2, 4, 5, 6);
    assert s[..2] + (d.Text() + s[4..5] + d.Text()) + s[7..] == "a *x* b";
  }

  /** The lazy group stops at the first closing: in "* a * b *" pass 6 matches "* a *" only. */
  lemma ItalicFirstClose(s: string)
    requires s == "* a * b *"
    ensures MatchAt(ItalicSqueeze, s, 0) == Some(Match(5, "*a*"))
  {
    var d := Delimiter(ItalicSqueeze);
    assert s[0] == '*' && s[1] == ' ' && s[2] == 'a' && s[3] == ' ' && s[4] == '*' && s[5] == ' ';
    assert DelimAt(s, 0, d) && DelimAt(s, 4, d);
    SqueezeFires(ItalicSqueeze, s, 0, 2, 3, 4);
    assert d.Text() + s[2..3] + d.Text() == "*a*";
  }

  /**
   * Bold holding only spaces keeps one: "**   **" gives "** **". The group
   * needs a character, so the opening ` +` gives spaces back to it until a
   * closing space and "**" follow.
   */
  lemma BoldPaddingOnly(s: string)
    requires s == "**   **"
    ensures Replace(BoldSqueeze, s) == "** **"
  {
    var d := Delimiter(BoldSqueeze);
    assert s[0] == '*' && s[1] == '*' && s[2] == ' ' && s[3] == ' ' && s[4] == ' ' && s[5] == '*' && s[6] == '*';
    assert DelimAt(s, 0, d) && DelimAt(s, 5, d);
    assert Run(s, 2, Blank) == 3 && Run(s, 4, Blank) == 1;
    assert Run(s, 5, Blank) == 0 && Run(s, 6, Blank) == 0 && Run(s, 7, Blank) == 0;
    assert LazyGroup(s, 0, d, false, 5, 6) == None;
    assert LazyGroup(s, 0, d, false, 4, 5) == None;
    assert LazyGroup(s, 0, d, false, 3, 4) == Some(Span(3, 4, 7));
    SqueezeSpanUnfold(s, 0, d, false);
    assert SqueezeSpan(s, 0, d, false) == Some(Span(3, 4, 7));
    SqueezeMatchAt(BoldSqueeze, s, 0);
    assert d.Text() + s[3..4] + d.Text() == "** **";
    assert MatchAt(BoldSqueeze, s, 0) == Some(Match(7, "** **"));
    ReplaceSingle(BoldSqueeze, s, 0);
    assert s[..0] + "** **" + s[7..] == "** **";
  }

  // ---------------------------------------------------------------------------
  // A whole run of formatMarkdown: "** bold **" at the start of a line.

  /** Passes 1 and 2 on "** bold **": no header, but the first '*' is taken for a bullet marker. */
  lemma BoldAtLineStartIsBullet(s: string)
    requires s == "** bold **"
    ensures Replace(HeaderSpace, s) == s
    ensures Replace(BulletSpace, s) == "* * bold **"
  {
    assert NoTerminator(s, 0, |s|);
    assert s[0] == '*' && s[1] == '*';
    assert Run(s, 0, HashSign) == 0;
    assert HeaderGap(s, 0) == None;
    HeaderLine(s);
    assert Run(s, 0, AnySpace) == 0;
    assert BulletGap(s, 0) == Some(1);
    BulletLine(s);
    assert s[..1] + " " + s[1..] == "* * bold **";
  }

  /** Passes 3 to 5 leave "* * bold **" alone: no digit, and no "**" or "__" followed by a space. */
  lemma SplitBoldKept(t: string)
    requires t == "* * bold **"
    ensures Replace(NumberSpace, t) == t
    ensures Replace(BoldSqueeze, t) == t
    ensures Replace(UnderscoreSqueeze, t) == t
  {
    assert NoTerminator(t, 0, |t|);
    assert t[0] == '*';
    assert Run(t, 0, AnySpace) == 0 && Run(t, 0, Digit) == 0;
    assert NumberGap(t, 0) == None;
    NumberLine(t);
    forall j | 0 <= j < |t|
      ensures MatchAt(BoldSqueeze, t, j).None? && MatchAt(UnderscoreSqueeze, t, j).None?
    {
      SqueezeNeedsMark(UnderscoreSqueeze, t, j);
      if t[j] == '*' {
        assert j == 0 || j == 2 || j == 9 || j == 10;
        SqueezeTight(BoldSqueeze, t, j);
      } else {
        SqueezeNeedsMark(BoldSqueeze, t, j);
      }
    }
    ReplaceUnchangedIff(BoldSqueeze, t);
    ReplaceUnchangedIff(UnderscoreSqueeze, t);
  }

  /**
   * Pass 6 leaves "* * bold **" alone too: the only space followed by a
   * single '*' is the one right after the first, and the closing " *" before
   * the last '*' is followed by another '*'.
   */
  lemma SplitBoldNotItalic(t: string)
    requires t == "* * bold **"
    ensures Replace(ItalicSqueeze, t) == t
  {
    var d := Delimiter(ItalicSqueeze);
    forall k | 2 <= k < |t|
      ensures !ClosesAt(t, k, d, true)
    {
      if k == 3 {
        assert Run(t, 3, Blank) == 1 && t[4] == 'b';
      } else if k == 8 {
        assert Run(t, 8, Blank) == 1 && t[10] == '*';
      } else {
        assert t[k] != ' ';
      }
    }
    forall j | 0 <= j < |t|
      ensures MatchAt(ItalicSqueeze, t, j).None?
    {
      if j == 0 || j == 2 {
        SqueezeNeedsClose(ItalicSqueeze, t, j);
      } else if j == 9 || j == 10 {
        SqueezeTight(ItalicSqueeze, t, j);
      } else {
        SqueezeNeedsMark(ItalicSqueeze, t, j);
      }
    }
    ReplaceUnchangedIff(ItalicSqueeze, t);
  }

  /** Passes 7 to 9 leave "* * bold **" alone: no '>' and no line break. */
  lemma SplitBoldLastPasses(t: string)
    requires t == "* * bold **"
    ensures Replace(QuoteSpace, t) == t
    ensures Replace(BlankBeforeHeader, t) == t
    ensures Replace(BlankBeforeBullet, t) == t
  {
    assert NoTerminator(t, 0, |t|);
    assert QuoteGap(t, 0) == None;
    QuoteLine(t);
    forall j | 0 <= j < |t|
      ensures MatchAt(BlankBeforeHeader, t, j).None? && MatchAt(BlankBeforeBullet, t, j).None?
    {
      NeedsNewlineNext(BlankBeforeHeader, t, j);
      NeedsNewlineNext(BlankBeforeBullet, t, j);
    }
    ReplaceUnchangedIff(BlankBeforeHeader, t);
    ReplaceUnchangedIff(BlankBeforeBullet, t);
  }

  /**
   * formatMarkdown("** bold **") is "* * bold **": pass 2 runs before the
   * squeeze of pass 4 and splits the opening "**", after which no squeeze
   * fits.
   */
  lemma FormatBoldAtLineStart(s: string)
    requires s == "** bold **"
    ensures FormatMarkdown(s) == "* * bold **"
  {
    var t := "* * bold **";
    FormatSteps(s);
    BoldAtLineStartIsBullet(s);
    SplitBoldKept(t);
    SplitBoldNotItalic(t);
    SplitBoldLastPasses(t);
  }
}
