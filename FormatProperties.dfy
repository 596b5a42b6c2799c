/**
 * What the nine passes of formatMarkdown do, stated about the model in
 * FormatService: the closed-form rules the backtracking patterns amount to,
 * when a pass leaves its input alone, that every pass only moves spaces and
 * newlines around, and worked inputs (including the one that shows the
 * pipeline is not idempotent).
 */
module FormatProperties {
  import opened JsText
  import opened FormatService
  import opened Wrappers

  // ---------------------------------------------------------------------------
  // The global replacement engine.

  /** Positions i..j-1 hold no match start: the scan copies them unchanged. */
  lemma {:induction false} ScanCopy(s: string, t: seq<Option<Match>>, i: nat, j: nat)
    requires Table(s, t) && i <= j <= |s|
    requires forall k :: i <= k < j ==> t[k].None?
    ensures Scan(s, t, i) == s[i..j] + Scan(s, t, j)
    decreases j - i
  {
    if i < j {
      ScanCopy(s, t, i + 1, j);
      var rest := Scan(s, t, j);
      calc {
        Scan(s, t, i);
        [s[i]] + Scan(s, t, i + 1);
        [s[i]] + (s[i + 1..j] + rest);
        ([s[i]] + s[i + 1..j]) + rest;
        { assert [s[i]] + s[i + 1..j] == s[i..j]; }
        s[i..j] + rest;
      }
    }
  }

  /** Every match of t inserts exactly one character. */
  predicate Grows(s: string, t: seq<Option<Match>>)
    requires Table(s, t)
  {
    forall k :: 0 <= k < |t| && t[k].Some? ==> |t[k].value.replacement| == t[k].value.end - k + 1
  }

  /** Every match of t deletes at least two characters. */
  predicate Shrinks(s: string, t: seq<Option<Match>>)
    requires Table(s, t)
  {
    forall k :: 0 <= k < |t| && t[k].Some? ==> |t[k].value.replacement| + 2 <= t[k].value.end - k
  }

  /**
   * The length moves one way: a growing table never shortens the text, a
   * shrinking one never lengthens it, and in either case the length stays
   * the same only when no position from i on matches.
   */
  lemma {:induction false} ScanLength(s: string, t: seq<Option<Match>>, i: nat)
    requires Table(s, t) && i <= |s|
    ensures Grows(s, t) ==> |Scan(s, t, i)| >= |s| - i
    ensures Shrinks(s, t) ==> |Scan(s, t, i)| <= |s| - i
    ensures (Grows(s, t) || Shrinks(s, t)) && |Scan(s, t, i)| == |s| - i ==> forall j :: i <= j < |s| ==> t[j].None?
    decreases |s| - i
  {
    if i < |s| {
      match t[i]
      case Some(m) =>
        ScanLength(s, t, m.end);
        assert Scan(s, t, i) == m.replacement + Scan(s, t, m.end);
      case None =>
        ScanLength(s, t, i + 1);
        assert Scan(s, t, i) == [s[i]] + Scan(s, t, i + 1);
    }
  }

  /** Insertion passes have growing tables, squeeze passes shrinking ones. */
  lemma MatchesResize(r: Rule, s: string)
    ensures !r.Squeezes() ==> Grows(s, Matches(r, s))
    ensures r.Squeezes() ==> Shrinks(s, Matches(r, s))
  {
    var t := Matches(r, s);
    forall k | 0 <= k < |t| && t[k].Some?
      ensures !r.Squeezes() ==> |t[k].value.replacement| == t[k].value.end - k + 1
      ensures r.Squeezes() ==> |t[k].value.replacement| + 2 <= t[k].value.end - k
    {
      assert t[k] == MatchAt(r, s, k);
      assert r.InsertsSpace() || r.InsertsNewline() || r.Squeezes();
    }
  }

  /** A pass changes its input exactly when its pattern matches somewhere in it. */
  lemma ReplaceUnchangedIff(r: Rule, s: string)
    ensures Replace(r, s) == s <==> forall j :: 0 <= j < |s| ==> MatchAt(r, s, j).None?
  {
    var t := Matches(r, s);
    MatchesResize(r, s);
    ScanLength(s, t, 0);
    if forall j :: 0 <= j < |s| ==> MatchAt(r, s, j).None? {
      ScanCopy(s, t, 0, |s|);
      assert s[0..|s|] == s;
    }
  }

  /** A table whose only match in reach of the scan is at i replaces exactly that stretch. */
  lemma ScanSingle(s: string, t: seq<Option<Match>>, i: nat)
    requires Table(s, t) && i < |s| && t[i].Some?
    requires forall k :: 0 <= k < i ==> t[k].None?
    requires forall k :: t[i].value.end <= k < |s| ==> t[k].None?
    ensures Scan(s, t, 0) == s[..i] + t[i].value.replacement + s[t[i].value.end..]
  {
    var m := t[i].value;
    var pre, post := s[..i], s[m.end..];
    calc {
      Scan(s, t, 0);
      { ScanCopy(s, t, 0, i); assert s[0..i] == pre; }
      pre + Scan(s, t, i);
      pre + (m.replacement + Scan(s, t, m.end));
      { ScanCopy(s, t, m.end, |s|); assert s[m.end..|s|] == post; }
      pre + (m.replacement + (post + Scan(s, t, |s|)));
      pre + (m.replacement + post);
      pre + m.replacement + post;
    }
  }

  /**
   * A pass whose pattern matches at i and at no other position before i or
   * after the end of that match replaces exactly that one stretch.
   */
  lemma ReplaceSingle(r: Rule, s: string, i: nat)
    requires i < |s| && MatchAt(r, s, i).Some?
    requires forall k :: 0 <= k < i ==> MatchAt(r, s, k).None?
    requires forall k :: MatchAt(r, s, i).value.end <= k < |s| ==> MatchAt(r, s, k).None?
    ensures Replace(r, s) == s[..i] + MatchAt(r, s, i).value.replacement + s[MatchAt(r, s, i).value.end..]
  {
    ScanSingle(s, Matches(r, s), i);
  }

  // ---------------------------------------------------------------------------
  // Only spaces and newlines move.

  /** s with every ' ' and '\n' deleted. */
  function Strip(s: string): (r: string)
    ensures |r| <= |s|
    ensures forall k :: 0 <= k < |r| ==> r[k] != ' ' && r[k] != '\n'
  {
    if s == [] then []
    else if s[0] == ' ' || s[0] == '\n' then Strip(s[1..])
    else [s[0]] + Strip(s[1..])
  }

  lemma {:induction false} StripConcat(a: string, b: string)
    ensures Strip(a + b) == Strip(a) + Strip(b)
  {
    if a != [] {
      assert (a + b)[0] == a[0];
      assert (a + b)[1..] == a[1..] + b;
      StripConcat(a[1..], b);
    } else {
      assert a + b == b;
    }
  }

  lemma {:induction false} StripBlanks(s: string, a: nat, b: nat)
    requires a <= b <= |s| && AllBlanks(s, a, b)
    ensures Strip(s[a..b]) == []
    decreases b - a
  {
    if a < b {
      assert s[a..b][1..] == s[a + 1..b];
      StripBlanks(s, a + 1, b);
    }
  }

  lemma PaddingStrip(a: string, b: string, c: string, e: string, f: string)
    requires Strip(b) == [] && Strip(e) == []
    ensures Strip(a + b + c + e + f) == Strip(a + c + f)
  {
    var ab := a + b;
    var abc := ab + c;
    StripConcat(a, b);
    assert Strip(ab) == Strip(a);
    StripConcat(ab, c);
    StripConcat(abc, e);
    assert Strip(abc + e) == Strip(a) + Strip(c);
    StripConcat(abc + e, f);
    StripConcat(a, c);
    StripConcat(a + c, f);
  }

  lemma FiveSlices(s: string, a0: nat, a1: nat, a2: nat, a3: nat, a4: nat, a5: nat)
    requires a0 <= a1 <= a2 <= a3 <= a4 <= a5 <= |s|
    ensures s[a0..a5] == s[a0..a1] + s[a1..a2] + s[a2..a3] + s[a3..a4] + s[a4..a5]
  {
    assert s[a3..a5] == s[a3..a4] + s[a4..a5];
    assert s[a2..a5] == s[a2..a3] + s[a3..a5];
    assert s[a1..a5] == s[a1..a2] + s[a2..a5];
    assert s[a0..a5] == s[a0..a1] + s[a1..a5];
  }

  lemma DelimSlice(s: string, j: nat, d: Delim)
    requires DelimAt(s, j, d)
    ensures s[j..j + d.Width()] == d.Text()
  {
  }

  /** A squeeze replacement deletes only the padding spaces. */
  lemma SqueezePreservesStrip(s: string, i: nat, d: Delim, guarded: bool, sp: Span)
    requires SqueezeSpan(s, i, d, guarded) == Some(sp)
    ensures Strip(d.Text() + s[sp.groupStart..sp.groupEnd] + d.Text()) == Strip(s[i..sp.end])
  {
    SqueezeSpanShape(s, i, d, guarded);
    var p1, p2 := i + d.Width(), sp.end - d.Width();
    FiveSlices(s, i, p1, sp.groupStart, sp.groupEnd, p2, sp.end);
    var open, pad1, group, pad2, close := s[i..p1], s[p1..sp.groupStart], s[sp.groupStart..sp.groupEnd], s[sp.groupEnd..p2], s[p2..sp.end];
    DelimSlice(s, i, d);
    DelimSlice(s, p2, d);
    assert open == d.Text() && close == d.Text();
    StripBlanks(s, p1, sp.groupStart);
    StripBlanks(s, sp.groupEnd, p2);
    PaddingStrip(open, pad1, group, pad2, close);
    assert Strip(s[i..sp.end]) == Strip(open + group + close);
  }

  lemma SqueezeAtSpan(s: string, i: nat, d: Delim, guarded: bool, sp: Span)
    requires SqueezeSpan(s, i, d, guarded) == Some(sp)
    ensures SqueezeAt(s, i, d, guarded) == Some(Match(sp.end, d.Text() + s[sp.groupStart..sp.groupEnd] + d.Text()))
  {
  }

  /** Every single replacement keeps the text once spaces and newlines are deleted. */
  lemma MatchPreservesStrip(r: Rule, s: string, i: nat)
    requires i < |s| && MatchAt(r, s, i).Some?
    ensures Strip(MatchAt(r, s, i).value.replacement) == Strip(s[i..MatchAt(r, s, i).value.end])
  {
    var m := MatchAt(r, s, i).value;
    if r.InsertsSpace() {
      StripConcat(s[i..m.end], " ");
    } else if r.InsertsNewline() {
      NewlineMatchPreservesStrip(r, s, i);
    } else {
      var d, guarded := Delimiter(r), r.ItalicSqueeze?;
      var sp := SqueezeSpan(s, i, d, guarded).value;
      SqueezeAtSpan(s, i, d, guarded, sp);
      SqueezePreservesStrip(s, i, d, guarded, sp);
    }
  }

  /** The blank-line passes only add a newline after the first character of the match. */
  lemma NewlineMatchPreservesStrip(r: Rule, s: string, i: nat)
    requires r.InsertsNewline() && i < |s| && MatchAt(r, s, i).Some?
    ensures Strip(MatchAt(r, s, i).value.replacement) == Strip(s[i..MatchAt(r, s, i).value.end])
  {
    var m := MatchAt(r, s, i).value;
    var x, y := s[i..i + 1], s[i + 1..m.end];
    assert m.replacement == x + "\n" + y;
    StripConcat(x + "\n", y);
    StripConcat(x, "\n");
    StripConcat(x, y);
    assert s[i..m.end] == x + y;
  }

  /** Every match of t keeps the text once spaces and newlines are deleted. */
  predicate StripSafe(s: string, t: seq<Option<Match>>)
    requires Table(s, t)
  {
    forall k :: 0 <= k < |t| && t[k].Some? ==> Strip(t[k].value.replacement) == Strip(s[k..t[k].value.end])
  }

  lemma {:induction false} ScanPreservesStrip(s: string, t: seq<Option<Match>>, i: nat)
    requires Table(s, t) && i <= |s| && StripSafe(s, t)
    ensures Strip(Scan(s, t, i)) == Strip(s[i..])
    decreases |s| - i
  {
    if i < |s| {
      match t[i]
      case Some(m) =>
        ScanPreservesStrip(s, t, m.end);
        StripConcat(m.replacement, Scan(s, t, m.end));
        StripConcat(s[i..m.end], s[m.end..]);
        assert s[i..] == s[i..m.end] + s[m.end..];
      case None =>
        ScanPreservesStrip(s, t, i + 1);
        StripConcat([s[i]], Scan(s, t, i + 1));
        StripConcat([s[i]], s[i + 1..]);
        assert s[i..] == [s[i]] + s[i + 1..];
    }
  }

  lemma ReplacePreservesStrip(r: Rule, s: string)
    ensures Strip(Replace(r, s)) == Strip(s)
  {
    var t := Matches(r, s);
    forall k | 0 <= k < |t| && t[k].Some?
      ensures Strip(t[k].value.replacement) == Strip(s[k..t[k].value.end])
    {
      MatchPreservesStrip(r, s, k);
    }
    ScanPreservesStrip(s, t, 0);
    assert s[0..] == s;
  }

  lemma {:induction false} ApplyAllPreservesStrip(rs: seq<Rule>, s: string)
    ensures Strip(ApplyAll(rs, s)) == Strip(s)
    decreases |rs|
  {
    if rs != [] {
      ReplacePreservesStrip(rs[0], s);
      ApplyAllPreservesStrip(rs[1..], Replace(rs[0], s));
    }
  }

  /**
   * formatMarkdown only inserts spaces and newlines or deletes spaces: with
   * every ' ' and '\n' deleted, input and output are the same text.
   */
  lemma FormatPreservesStrip(text: string)
    ensures Strip(FormatMarkdown(text)) == Strip(text)
  {
    ApplyAllPreservesStrip(Pipeline, text);
  }

  // ---------------------------------------------------------------------------
  // What each backtracking pattern amounts to at one position.

  /** A space inserted after s[i..e] for a match found at i, as the insertion passes do. */
  function Spaced(s: string, i: nat, g: Option<nat>): Option<Match>
    requires g.Some? ==> i < g.value <= |s|
  {
    match g
    case None => None
    case Some(e) => Some(Match(e, s[i..e] + " "))
  }

  /**
   * Where pass 1 puts its space for a match at i, in closed form: at a line
   * start holding n '#', seven or more get it after the sixth; one to six not
   * followed by a space get it after the run; a run already followed by a
   * space and at least two long gets it after its next-to-last '#' (the
   * greedy run gives one back to satisfy the lookahead).
   */
  function HeaderGap(s: string, i: nat): (g: Option<nat>)
    requires i <= |s|
    ensures g.Some? ==> i < g.value <= |s|
  {
    var n := Run(s, i, HashSign);
    if !AtLineStart(s, i) || n == 0 || (n == 1 && !NotFollowedBy(s, i + 1, ' ')) then None
    else if n >= 7 then Some(i + 6)
    else if NotFollowedBy(s, i + n, ' ') then Some(i + n)
    else Some(i + n - 1)
  }

  /** Every character of the run Run counts belongs to its class. */
  lemma {:induction false} RunAll(s: string, i: nat, cl: CharClass)
    requires i <= |s|
    ensures forall k :: i <= k < i + Run(s, i, cl) ==> InClass(s[k], cl)
    decreases |s| - i
  {
    if i < |s| && InClass(s[i], cl) {
      RunAll(s, i + 1, cl);
    }
  }

  /** The backtracking search of pass 1 agrees with the closed form. */
  lemma HeaderRule(s: string, i: nat)
    requires i < |s|
    ensures HeaderAt(s, i) == Spaced(s, i, HeaderGap(s, i))
  {
    var n := Run(s, i, HashSign);
    RunAll(s, i, HashSign);
    if AtLineStart(s, i) && n >= 2 && n <= 6 && !NotFollowedBy(s, i + n, ' ') {
      assert HeaderTry(s, i, n - 1) == Some(Match(i + n - 1, s[i..i + n - 1] + " "));
    }
  }

  /** BulletTry finds nothing while the tried prefix ends in white space. */
  lemma {:induction false} BulletTryNone(s: string, i: nat, w: nat)
    requires i + w < |s|
    requires forall k :: i <= k <= i + w ==> IsSpace(s[k])
    ensures BulletTry(s, i, w) == None
    decreases w
  {
    if w > 0 {
      BulletTryNone(s, i, w - 1);
    }
  }

  /**
   * Where pass 2 puts its space, in closed form: at a line start whose first
   * character after the leading white space is a bullet marker not followed
   * by a space, right after that marker.
   */
  function BulletGap(s: string, i: nat): (g: Option<nat>)
    requires i <= |s|
    ensures g.Some? ==> i < g.value <= |s|
  {
    var w := Run(s, i, AnySpace);
    if AtLineStart(s, i) && i + w < |s| && IsBulletMarker(s[i + w]) && NotFollowedBy(s, i + w + 1, ' ')
    then Some(i + w + 1)
    else None
  }

  /** The backtracking search of pass 2 agrees with the closed form. */
  lemma BulletRule(s: string, i: nat)
    requires i < |s|
    ensures BulletAt(s, i) == Spaced(s, i, BulletGap(s, i))
  {
    var w := Run(s, i, AnySpace);
    if AtLineStart(s, i) && w > 0 && !(i + w < |s| && IsBulletMarker(s[i + w]) && NotFollowedBy(s, i + w + 1, ' ')) {
      RunAll(s, i, AnySpace);
      BulletTryNone(s, i, w - 1);
    }
  }

  /** NumberDigitTry finds nothing while the tried digit run is followed by another digit. */
  lemma {:induction false} DigitTryNone(s: string, i: nat, j: nat, n: nat)
    requires i <= j && j + n < |s|
    requires forall k :: j <= k <= j + n ==> IsDigit(s[k])
    ensures NumberDigitTry(s, i, j, n) == None
    decreases n
  {
    if n > 0 {
      DigitTryNone(s, i, j, n - 1);
    }
  }

  /** NumberSpaceTry finds nothing while the tried prefix ends in white space. */
  lemma {:induction false} NumberSpaceTryNone(s: string, i: nat, w: nat)
    requires i + w < |s|
    requires forall k :: i <= k <= i + w ==> IsSpace(s[k])
    ensures NumberSpaceTry(s, i, w) == None
    decreases w
  {
    assert Run(s, i + w, Digit) == 0;
    if w > 0 {
      NumberSpaceTryNone(s, i, w - 1);
    }
  }

  /**
   * Where pass 3 puts its space, in closed form: at a line start whose
   * leading white space is followed by a non-empty digit run, a '.' and then
   * no space, right after the '.'.
   */
  function NumberGap(s: string, i: nat): (g: Option<nat>)
    requires i <= |s|
    ensures g.Some? ==> i < g.value <= |s|
  {
    if AtLineStart(s, i) then DigitGap(s, i + Run(s, i, AnySpace)) else None
  }

  /** The digit part of pass 3 from j: a non-empty digit run, a '.', then no space. */
  function DigitGap(s: string, j: nat): (g: Option<nat>)
    requires j <= |s|
    ensures g.Some? ==> j < g.value <= |s|
  {
    var n := Run(s, j, Digit);
    if n >= 1 && j + n < |s| && s[j + n] == '.' && NotFollowedBy(s, j + n + 1, ' ')
    then Some(j + n + 1)
    else None
  }

  /** The backtracking search of pass 3 agrees with the closed form. */
  lemma NumberRule(s: string, i: nat)
    requires i < |s|
    ensures NumberAt(s, i) == Spaced(s, i, NumberGap(s, i))
  {
    if AtLineStart(s, i) {
      NumberRuleAtLineStart(s, i);
    }
  }

  /** The line-start case of NumberRule, where both sides skip the leading white space. */
  lemma NumberRuleAtLineStart(s: string, i: nat)
    requires i < |s| && AtLineStart(s, i)
    ensures NumberAt(s, i) == Spaced(s, i, NumberGap(s, i))
  {
    var w := Run(s, i, AnySpace);
    NumberUnfold(s, i);
    NumberSpaceTryReduce(s, i);
    NumberDigitRule(s, i, i + w);
  }

  /** At a line start, pass 3 and its closed form both begin after the leading white space. */
  lemma NumberUnfold(s: string, i: nat)
    requires i < |s| && AtLineStart(s, i)
    ensures NumberAt(s, i) == NumberSpaceTry(s, i, Run(s, i, AnySpace))
    ensures NumberGap(s, i) == DigitGap(s, i + Run(s, i, AnySpace))
  {
  }

  /** Backtracking into the leading white space of pass 3 never helps. */
  lemma NumberSpaceTryReduce(s: string, i: nat)
    requires i < |s|
    ensures var w := Run(s, i, AnySpace);
      NumberSpaceTry(s, i, w) == NumberDigitTry(s, i, i + w, Run(s, i + w, Digit))
  {
    var w := Run(s, i, AnySpace);
    if w > 0 {
      RunAll(s, i, AnySpace);
      NumberSpaceTryNone(s, i, w - 1);
    }
  }

  /** The digit part of pass 3 with the digits starting at j. */
  lemma NumberDigitRule(s: string, i: nat, j: nat)
    requires i <= j <= |s|
    ensures NumberDigitTry(s, i, j, Run(s, j, Digit)) == Spaced(s, i, DigitGap(s, j))
  {
    var n := Run(s, j, Digit);
    if n >= 1 && !(j + n < |s| && s[j + n] == '.' && NotFollowedBy(s, j + n + 1, ' ')) {
      assert NumberDigitTry(s, i, j, n) == NumberDigitTry(s, i, j, n - 1);
      RunAll(s, j, Digit);
      DigitTryNone(s, i, j, n - 1);
    }
  }

  /**
   * Pass 8 at i: it fires exactly when s[i] is not '\n', s[i+1] is, and the
   * next line opens with one to six '#' and a space; a blank line already
   * there, a seventh '#', or a missing space prevents it.
   */
  lemma BlankHeaderRule(s: string, i: nat)
    requires i < |s|
    ensures var m := BlankHeaderAt(s, i);
      && (m.Some? <==> i + 1 < |s| && s[i] != '\n' && s[i + 1] == '\n'
                       && var n := Run(s, i + 2, HashSign); 1 <= n <= 6 && i + 2 + n < |s| && s[i + 2 + n] == ' ')
      && (m.Some? ==> m.value.end == i + 3 + Run(s, i + 2, HashSign))
  {
    if i + 1 < |s| && s[i] != '\n' && s[i + 1] == '\n' {
      var n := Run(s, i + 2, HashSign);
      RunAll(s, i + 2, HashSign);
      if n > 6 {
        BlankHeaderTryNone(s, i, 6);
      } else if n > 0 && !(i + 2 + n < |s| && s[i + 2 + n] == ' ') {
        BlankHeaderTryNone(s, i, n - 1);
      }
    }
  }

  /** BlankHeaderTry finds nothing while the tried run of '#' is followed by another '#'. */
  lemma {:induction false} BlankHeaderTryNone(s: string, i: nat, k: nat)
    requires i + 2 + k < |s|
    requires forall j :: i + 2 <= j <= i + 2 + k ==> s[j] == '#'
    ensures BlankHeaderTry(s, i, k) == None
    decreases k
  {
    if k > 0 {
      BlankHeaderTryNone(s, i, k - 1);
    }
  }

  lemma SqueezeMatchAt(r: Rule, s: string, i: nat)
    requires r.Squeezes() && i < |s|
    ensures MatchAt(r, s, i) == SqueezeAt(s, i, Delimiter(r), r.ItalicSqueeze?)
  {
  }

  /** A closing found by CloseTry is padding and the delimiter, with the '*' lookahead when guarded. */
  lemma {:induction false} CloseTryShape(s: string, e: nat, d: Delim, guarded: bool, q: nat, c: nat)
    requires e + q <= |s| && AllBlanks(s, e, e + q) && CloseTry(s, e, d, guarded, q) == Some(c)
    ensures e + d.Width() <= c <= |s|
    ensures AllBlanks(s, e, c - d.Width()) && DelimAt(s, c - d.Width(), d) && (guarded ==> NotFollowedBy(s, c, '*'))
    decreases q
  {
    if !(e + q + d.Width() <= |s| && DelimAt(s, e + q, d) && (!guarded || NotFollowedBy(s, e + q + d.Width(), '*'))) {
      assert CloseTry(s, e, d, guarded, q - 1) == Some(c);
      CloseTryShape(s, e, d, guarded, q - 1, c);
    }
  }

  /** A match found by LazyGroup has the squeeze shape, with the group starting at gs. */
  lemma {:induction false} LazyGroupShape(s: string, i: nat, d: Delim, guarded: bool, gs: nat, e: nat, sp: Span)
    requires i + d.Width() < gs < e <= |s| && DelimAt(s, i, d)
    requires AllBlanks(s, i + d.Width(), gs) && NoTerminator(s, gs, e)
    requires LazyGroup(s, i, d, guarded, gs, e) == Some(sp)
    ensures SqueezeShape(s, i, d, sp) && (guarded ==> NotFollowedBy(s, sp.end, '*'))
    decreases |s| - e
  {
    var q := Run(s, e, Blank);
    match CloseTry(s, e, d, guarded, q)
    case Some(c) =>
      assert sp == Span(gs, e, c);
      RunAll(s, e, Blank);
      CloseTryShape(s, e, d, guarded, q, c);
    case None =>
      assert LazyGroup(s, i, d, guarded, gs, e + 1) == Some(sp);
      assert NoTerminator(s, gs, e + 1);
      LazyGroupShape(s, i, d, guarded, gs, e + 1, sp);
  }

  /** A match found by OpenTry has the squeeze shape. */
  lemma {:induction false} OpenTryShape(s: string, i: nat, d: Delim, guarded: bool, p: nat, sp: Span)
    requires i + d.Width() + p <= |s| && DelimAt(s, i, d)
    requires AllBlanks(s, i + d.Width(), i + d.Width() + p)
    requires OpenTry(s, i, d, guarded, p) == Some(sp)
    ensures SqueezeShape(s, i, d, sp) && (guarded ==> NotFollowedBy(s, sp.end, '*'))
    decreases p
  {
    var gs := i + d.Width() + p;
    if gs < |s| && !IsLineTerminator(s[gs]) && LazyGroup(s, i, d, guarded, gs, gs + 1).Some? {
      assert LazyGroup(s, i, d, guarded, gs, gs + 1) == Some(sp);
      LazyGroupShape(s, i, d, guarded, gs, gs + 1, sp);
    } else {
      assert OpenTry(s, i, d, guarded, p - 1) == Some(sp);
      assert AllBlanks(s, i + d.Width(), i + d.Width() + (p - 1));
      OpenTryShape(s, i, d, guarded, p - 1, sp);
    }
  }

  /** A squeeze match has the squeeze shape, with both '*' lookarounds when guarded. */
  lemma SqueezeSpanShape(s: string, i: nat, d: Delim, guarded: bool)
    requires SqueezeSpan(s, i, d, guarded).Some?
    ensures var sp := SqueezeSpan(s, i, d, guarded).value;
      SqueezeShape(s, i, d, sp) && (guarded ==> (i == 0 || s[i - 1] != '*') && NotFollowedBy(s, sp.end, '*'))
  {
    RunAll(s, i + d.Width(), Blank);
    OpenTryShape(s, i, d, guarded, Run(s, i + d.Width(), Blank), SqueezeSpan(s, i, d, guarded).value);
  }

  /** Where a closing starts, the closing ` +` takes it at its first try. */
  lemma ClosesAtTries(s: string, e: nat, d: Delim, guarded: bool)
    requires e <= |s| && ClosesAt(s, e, d, guarded)
    ensures CloseTry(s, e, d, guarded, Run(s, e, Blank)).Some?
  {
  }

  /** The lazy group that LazyGroup settles on has no closing before its end: it stops at the first. */
  lemma {:induction false} LazyGroupFirst(s: string, i: nat, d: Delim, guarded: bool, gs: nat, e: nat, sp: Span)
    requires gs < e <= |s| && LazyGroup(s, i, d, guarded, gs, e) == Some(sp)
    ensures e <= sp.groupEnd && forall k :: e <= k < sp.groupEnd ==> !ClosesAt(s, k, d, guarded)
    decreases |s| - e
  {
    if CloseTry(s, e, d, guarded, Run(s, e, Blank)).None? {
      if ClosesAt(s, e, d, guarded) {
        ClosesAtTries(s, e, d, guarded);
      }
      LazyGroupFirst(s, i, d, guarded, gs, e + 1, sp);
    }
  }

  /** The same for the opening give-back: whichever padding wins, its group ends at the first closing. */
  lemma {:induction false} OpenTryFirstClose(s: string, i: nat, d: Delim, guarded: bool, p: nat, sp: Span)
    requires i + d.Width() + p <= |s| && OpenTry(s, i, d, guarded, p) == Some(sp)
    ensures forall k :: sp.groupStart < k < sp.groupEnd ==> !ClosesAt(s, k, d, guarded)
    decreases p
  {
    var gs := i + d.Width() + p;
    if gs < |s| && !IsLineTerminator(s[gs]) && LazyGroup(s, i, d, guarded, gs, gs + 1).Some? {
      assert LazyGroup(s, i, d, guarded, gs, gs + 1) == Some(sp);
      LazyGroupFirst(s, i, d, guarded, gs, gs + 1, sp);
    } else {
      OpenTryFirstClose(s, i, d, guarded, p - 1, sp);
    }
  }

  /**
   * Passes 4-6 at i: a match is the delimiter, at least one space, a
   * non-empty group, at least one space and the delimiter, all on one line
   * (no line terminator anywhere in it); it is replaced by the delimiters
   * around the group. For the single '*' the character before the match and
   * the one after it are not '*'. The lazy group ends at the first
   * position after its start where the closing spaces and delimiter follow.
   */
  lemma SqueezeRule(r: Rule, s: string, i: nat)
    requires r.Squeezes() && i < |s| && MatchAt(r, s, i).Some?
    ensures var d := Delimiter(r); var m := MatchAt(r, s, i).value;
      && SqueezeSpan(s, i, d, r.ItalicSqueeze?).Some?
      && var sp := SqueezeSpan(s, i, d, r.ItalicSqueeze?).value;
      && m == Match(sp.end, d.Text() + s[sp.groupStart..sp.groupEnd] + d.Text())
      && DelimAt(s, i, d) && s[i + d.Width()] == ' '
      && s[sp.groupEnd] == ' ' && DelimAt(s, m.end - d.Width(), d)
      && NoTerminator(s, i, m.end)
      && (r.ItalicSqueeze? ==> (i == 0 || s[i - 1] != '*') && NotFollowedBy(s, m.end, '*'))
      && (forall k :: sp.groupStart < k < sp.groupEnd ==> !ClosesAt(s, k, d, r.ItalicSqueeze?))
  {
    var d := Delimiter(r);
    SqueezeRuleShape(r, s, i);
    var sp := SqueezeSpan(s, i, d, r.ItalicSqueeze?).value;
    SqueezeSpanUnfold(s, i, d, r.ItalicSqueeze?);
    OpenTryFirstClose(s, i, d, r.ItalicSqueeze?, Run(s, i + d.Width(), Blank), sp);
  }

  /** The shape part of SqueezeRule: delimiters, padding, one line and the lookarounds. */
  lemma SqueezeRuleShape(r: Rule, s: string, i: nat)
    requires r.Squeezes() && i < |s| && MatchAt(r, s, i).Some?
    ensures var d := Delimiter(r); var m := MatchAt(r, s, i).value;
      && SqueezeSpan(s, i, d, r.ItalicSqueeze?).Some?
      && var sp := SqueezeSpan(s, i, d, r.ItalicSqueeze?).value;
      && m == Match(sp.end, d.Text() + s[sp.groupStart..sp.groupEnd] + d.Text())
      && DelimAt(s, i, d) && s[i + d.Width()] == ' '
      && s[sp.groupEnd] == ' ' && DelimAt(s, m.end - d.Width(), d)
      && NoTerminator(s, i, m.end)
      && (r.ItalicSqueeze? ==> (i == 0 || s[i - 1] != '*') && NotFollowedBy(s, m.end, '*'))
  {
    var d := Delimiter(r);
    SqueezeMatchAt(r, s, i);
    var sp := SqueezeSpan(s, i, d, r.ItalicSqueeze?).value;
    SqueezeSpanShape(s, i, d, r.ItalicSqueeze?);
    SqueezeShapeFacts(s, i, d, sp);
  }

  /** A squeeze-shaped span opens and closes with a space inside the delimiters and crosses no line. */
  lemma SqueezeShapeFacts(s: string, i: nat, d: Delim, sp: Span)
    requires SqueezeShape(s, i, d, sp) && !IsLineTerminator(d.mark)
    ensures s[i + d.Width()] == ' ' && s[sp.groupEnd] == ' ' && NoTerminator(s, i, sp.end)
  {
    forall k | i <= k < sp.end
      ensures !IsLineTerminator(s[k])
    {
      if k < i + d.Width() {
        assert s[k] == d.mark;
      } else if k >= sp.end - d.Width() {
        assert s[k] == d.mark;
      }
    }
  }

  /** An already tight delimiter (no space right after it) starts no squeeze match: "**bold**" stays. */
  lemma SqueezeTight(r: Rule, s: string, i: nat)
    requires r.Squeezes() && i < |s| && NotFollowedBy(s, i + Delimiter(r).Width(), ' ')
    ensures MatchAt(r, s, i) == None
  {
    if MatchAt(r, s, i).Some? {
      SqueezeRule(r, s, i);
    }
  }

  /** The closing padding and delimiter at ge..ce+d.Width() is taken at the first try. */
  lemma CloseAt(s: string, d: Delim, guarded: bool, ge: nat, ce: nat)
    requires ge < ce && ce + d.Width() <= |s| && d.mark != ' '
    requires AllBlanks(s, ge, ce) && DelimAt(s, ce, d)
    requires guarded ==> NotFollowedBy(s, ce + d.Width(), '*')
    ensures CloseTry(s, ge, d, guarded, Run(s, ge, Blank)) == Some(ce + d.Width())
  {
    assert s[ce] == d.mark;
    RunExact(s, ge, ce, Blank);
  }

  /**
   * The closing ` +` and delimiter can start at e: the spaces from e are at
   * least one and are followed by the delimiter (and, guarded, by no '*').
   */
  predicate ClosesAt(s: string, e: nat, d: Delim, guarded: bool)
    requires e <= |s|
  {
    var q := Run(s, e, Blank);
    q > 0 && DelimAt(s, e + q, d) && (!guarded || NotFollowedBy(s, e + q + d.Width(), '*'))
  }

  /** Where no closing can start, every give-back of the closing spaces fails. */
  lemma {:induction false} CloseTryFails(s: string, e: nat, d: Delim, guarded: bool, q: nat)
    requires e <= |s| && q <= Run(s, e, Blank) && d.mark != ' ' && !ClosesAt(s, e, d, guarded)
    ensures CloseTry(s, e, d, guarded, q) == None
    decreases q
  {
    if 0 < q {
      if q < Run(s, e, Blank) {
        RunAll(s, e, Blank);
        assert s[e + q] == ' ';
      }
      CloseTryFails(s, e, d, guarded, q - 1);
    }
  }

  /**
   * The lazy group, currently ending at e, extends over characters of one
   * line where no closing starts, and stops at the first position ge where
   * the closing padding and delimiter follow.
   */
  lemma {:induction false} LazyGroupWalk(s: string, i: nat, d: Delim, guarded: bool, gs: nat, e: nat, ge: nat, ce: nat)
    requires gs < e <= ge < ce && ce + d.Width() <= |s| && d.mark != ' '
    requires NoTerminator(s, gs, ge)
    requires forall k :: e <= k < ge ==> !ClosesAt(s, k, d, guarded)
    requires AllBlanks(s, ge, ce) && DelimAt(s, ce, d)
    requires guarded ==> NotFollowedBy(s, ce + d.Width(), '*')
    ensures LazyGroup(s, i, d, guarded, gs, e) == Some(Span(gs, ge, ce + d.Width()))
    decreases ge - e
  {
    if e < ge {
      assert !ClosesAt(s, e, d, guarded);
      CloseTryFails(s, e, d, guarded, Run(s, e, Blank));
      assert !IsLineTerminator(s[e]);
      LazyGroupWalk(s, i, d, guarded, gs, e + 1, ge, ce);
    } else {
      CloseAt(s, d, guarded, ge, ce);
    }
  }

  /** A run of cl characters that ends at a non-cl character has exactly that length. */
  lemma {:induction false} RunExact(s: string, a: nat, b: nat, cl: CharClass)
    requires a <= b < |s|
    requires forall k :: a <= k < b ==> InClass(s[k], cl)
    requires !InClass(s[b], cl)
    ensures Run(s, a, cl) == b - a
    decreases b - a
  {
    if a < b {
      RunExact(s, a + 1, b, cl);
    }
  }

  /** SqueezeSpan takes all the opening padding and ends the group at the first closing. */
  lemma SqueezeSpanFires(s: string, i: nat, d: Delim, guarded: bool, gs: nat, ge: nat, ce: nat)
    requires i + d.Width() < gs < ge < ce && ce + d.Width() <= |s| && d.mark != ' '
    requires DelimAt(s, i, d) && AllBlanks(s, i + d.Width(), gs) && s[gs] != ' '
    requires NoTerminator(s, gs, ge)
    requires forall k :: gs < k < ge ==> !ClosesAt(s, k, d, guarded)
    requires AllBlanks(s, ge, ce) && DelimAt(s, ce, d)
    requires guarded ==> (i == 0 || s[i - 1] != '*') && NotFollowedBy(s, ce + d.Width(), '*')
    ensures SqueezeSpan(s, i, d, guarded) == Some(Span(gs, ge, ce + d.Width()))
  {
    var w, sp := d.Width(), Span(gs, ge, ce + d.Width());
    OpeningRun(s, i + w, gs);
    LazyGroupWalk(s, i, d, guarded, gs, gs + 1, ge, ce);
    var p := gs - i - w;
    assert i + w + p == gs && !IsLineTerminator(s[gs]);
    OpenTryFirst(s, i, d, guarded, p, sp);
    SqueezeSpanUnfold(s, i, d, guarded);
  }

  /** The opening padding is the whole run of spaces before a non-space. */
  lemma OpeningRun(s: string, a: nat, gs: nat)
    requires a <= gs < |s| && AllBlanks(s, a, gs) && s[gs] != ' '
    ensures Run(s, a, Blank) == gs - a
  {
    RunExact(s, a, gs, Blank);
  }

  /** With the delimiter at i and the '*' lookbehind met, SqueezeSpan is the search from the full padding. */
  lemma SqueezeSpanUnfold(s: string, i: nat, d: Delim, guarded: bool)
    requires DelimAt(s, i, d) && (guarded ==> i == 0 || s[i - 1] != '*')
    ensures SqueezeSpan(s, i, d, guarded) == OpenTry(s, i, d, guarded, Run(s, i + d.Width(), Blank))
  {
  }

  /** The first opening padding OpenTry tries wins when its lazy group closes. */
  lemma OpenTryFirst(s: string, i: nat, d: Delim, guarded: bool, p: nat, sp: Span)
    requires 0 < p && i + d.Width() + p < |s| && !IsLineTerminator(s[i + d.Width() + p])
    requires LazyGroup(s, i, d, guarded, i + d.Width() + p, i + d.Width() + p + 1) == Some(sp)
    ensures OpenTry(s, i, d, guarded, p) == Some(sp)
  {
  }

  /**
   * Passes 4-6 fire on padded emphasis: the delimiter, one or more spaces,
   * a group that starts with a non-space, stays on one line and ends at
   * the first position followed by spaces and the delimiter, then those
   * spaces and the delimiter (for the single '*': not preceded or followed
   * by '*'). The match is replaced by the group between the delimiters, so
   * "** two words **" becomes "**two words**", and in "* a * b *" the group
   * is "a" alone: the lazy group stops at the first closing.
   */
  lemma SqueezeFires(r: Rule, s: string, i: nat, gs: nat, ge: nat, ce: nat)
    requires r.Squeezes()
    requires var d := Delimiter(r); i + d.Width() < gs < ge < ce && ce + d.Width() <= |s|
    requires var d := Delimiter(r);
      && DelimAt(s, i, d) && AllBlanks(s, i + d.Width(), gs) && s[gs] != ' '
      && NoTerminator(s, gs, ge)
      && (forall k :: gs < k < ge ==> !ClosesAt(s, k, d, r.ItalicSqueeze?))
      && AllBlanks(s, ge, ce) && DelimAt(s, ce, d)
    requires r.ItalicSqueeze? ==> (i == 0 || s[i - 1] != '*') && NotFollowedBy(s, ce + 1, '*')
    ensures MatchAt(r, s, i) == Some(Match(ce + Delimiter(r).Width(), Delimiter(r).Text() + s[gs..ge] + Delimiter(r).Text()))
  {
    SqueezeMatchAt(r, s, i);
    SqueezeSpanFires(s, i, Delimiter(r), r.ItalicSqueeze?, gs, ge, ce);
  }

  /** A squeeze pass matches only where its delimiter's mark is. */
  lemma SqueezeNeedsMark(r: Rule, s: string, k: nat)
    requires r.Squeezes() && k < |s| && s[k] != Delimiter(r).mark
    ensures MatchAt(r, s, k) == None
  {
    if MatchAt(r, s, k).Some? {
      SqueezeRule(r, s, k);
    }
  }

  /** A squeeze match needs a closing after its opening padding: spaces then the delimiter. */
  lemma SqueezeNeedsClose(r: Rule, s: string, i: nat)
    requires r.Squeezes() && i < |s|
    requires forall k :: i + Delimiter(r).Width() < k < |s| ==> !ClosesAt(s, k, Delimiter(r), r.ItalicSqueeze?)
    ensures MatchAt(r, s, i) == None
  {
    if MatchAt(r, s, i).Some? {
      var d := Delimiter(r);
      SqueezeRule(r, s, i);
      var sp := SqueezeSpan(s, i, d, r.ItalicSqueeze?).value;
      SqueezeSpanShape(s, i, d, r.ItalicSqueeze?);
      RunExact(s, sp.groupEnd, sp.end - d.Width(), Blank);
      assert ClosesAt(s, sp.groupEnd, d, r.ItalicSqueeze?);
    }
  }

  /**
   * A whole squeeze pass over a text holding one padded emphasis and its
   * delimiter's mark nowhere else: exactly that emphasis is tightened.
   */
  lemma SqueezeOnce(r: Rule, s: string, i: nat, gs: nat, ge: nat, ce: nat)
    requires r.Squeezes()
    requires var d := Delimiter(r); i + d.Width() < gs < ge < ce && ce + d.Width() <= |s|
    requires var d := Delimiter(r);
      && DelimAt(s, i, d) && AllBlanks(s, i + d.Width(), gs) && s[gs] != ' '
      && NoTerminator(s, gs, ge)
      && (forall k :: gs < k < ge ==> !ClosesAt(s, k, d, r.ItalicSqueeze?))
      && AllBlanks(s, ge, ce) && DelimAt(s, ce, d)
    requires forall k :: 0 <= k < i ==> s[k] != Delimiter(r).mark
    requires forall k :: ce + Delimiter(r).Width() <= k < |s| ==> s[k] != Delimiter(r).mark
    ensures var d := Delimiter(r); var e := ce + d.Width();
      Replace(r, s) == s[..i] + (d.Text() + s[gs..ge] + d.Text()) + s[e..]
  {
    var d := Delimiter(r);
    var e := ce + d.Width();
    assert r.ItalicSqueeze? ==> (i == 0 || s[i - 1] != '*') && NotFollowedBy(s, ce + 1, '*');
    SqueezeFires(r, s, i, gs, ge, ce);
    forall k | 0 <= k < i || e <= k < |s|
      ensures MatchAt(r, s, k).None?
    {
      SqueezeNeedsMark(r, s, k);
    }
    ReplaceSingle(r, s, i);
  }

  /** Where pass 7 puts its space: after a '>' that opens a line and is not followed by a space. */
  function QuoteGap(s: string, i: nat): (g: Option<nat>)
    requires i <= |s|
    ensures g.Some? ==> i < g.value <= |s|
  {
    if AtLineStart(s, i) && i < |s| && s[i] == '>' && NotFollowedBy(s, i + 1, ' ') then Some(i + 1) else None
  }

  // ---------------------------------------------------------------------------
  // Whole passes over one line, or over two lines for the blank-line passes.

  /** A line-anchored pass over a single line can only fire at its first character. */
  lemma {:induction false} OneLine(r: Rule, s: string)
    requires r.InsertsSpace() && 0 < |s| && NoTerminator(s, 0, |s|)
    ensures Replace(r, s) == match MatchAt(r, s, 0)
                             case None => s
                             case Some(m) => s[..m.end] + " " + s[m.end..]
  {
    forall k | 1 <= k < |s|
      ensures MatchAt(r, s, k).None?
    {
      assert !AtLineStart(s, k);
    }
    match MatchAt(r, s, 0)
    case None =>
      ReplaceUnchangedIff(r, s);
    case Some(m) =>
      ReplaceSingle(r, s, 0);
      assert m.replacement == s[..m.end] + " ";
  }

  /** s with a space inserted at the gap g, if there is one. */
  function InsertSpace(s: string, g: Option<nat>): string
    requires g.Some? ==> g.value <= |s|
  {
    match g
    case None => s
    case Some(e) => s[..e] + " " + s[e..]
  }

  /** OneLine with the match at the start given by its closed form. */
  lemma OneLineGap(r: Rule, s: string, g: Option<nat>)
    requires r.InsertsSpace() && 0 < |s| && NoTerminator(s, 0, |s|)
    requires g.Some? ==> 0 < g.value <= |s|
    requires MatchAt(r, s, 0) == Spaced(s, 0, g)
    ensures Replace(r, s) == InsertSpace(s, g)
  {
    OneLine(r, s);
  }

  /**
   * Pass 1 over one line: "#Title" gives "# Title", "###Sub" gives
   * "### Sub", "## T" gives "# # T", seven or more '#' get a space after the
   * sixth, and a lone "# " is left alone.
   */
  lemma HeaderLine(s: string)
    requires NoTerminator(s, 0, |s|)
    ensures Replace(HeaderSpace, s) == InsertSpace(s, HeaderGap(s, 0))
  {
    if s != [] {
      HeaderRule(s, 0);
      OneLineGap(HeaderSpace, s, HeaderGap(s, 0));
    }
  }

  /**
   * Pass 2 over one line: one space goes after a leading bullet marker that
   * has none, and the indentation is kept ("-Item" gives "- Item", "  *Item"
   * gives "  * Item").
   */
  lemma BulletLine(s: string)
    requires NoTerminator(s, 0, |s|)
    ensures Replace(BulletSpace, s) == InsertSpace(s, BulletGap(s, 0))
  {
    if s != [] {
      BulletRule(s, 0);
      OneLineGap(BulletSpace, s, BulletGap(s, 0));
    }
  }

  /** Pass 3 over one line: "1.First" gives "1. First"; "1. First" is unchanged. */
  lemma NumberLine(s: string)
    requires NoTerminator(s, 0, |s|)
    ensures Replace(NumberSpace, s) == InsertSpace(s, NumberGap(s, 0))
  {
    if s != [] {
      NumberRule(s, 0);
      OneLineGap(NumberSpace, s, NumberGap(s, 0));
    }
  }

  /** Pass 7 over one line: ">Quote" gives "> Quote", ">>x" gives "> >x", "> x" is unchanged. */
  lemma QuoteLine(s: string)
    requires NoTerminator(s, 0, |s|)
    ensures Replace(QuoteSpace, s) == InsertSpace(s, QuoteGap(s, 0))
  {
    if s != [] {
      OneLineGap(QuoteSpace, s, QuoteGap(s, 0));
    }
  }

  lemma RunShift(p: string, b: string, cl: CharClass)
    ensures Run(p + b, |p|, cl) == Run(b, 0, cl)
  {
    var n := Run(b, 0, cl);
    var s := p + b;
    RunAll(b, 0, cl);
    forall k | |p| <= k < |p| + n
      ensures InClass(s[k], cl)
    {
      assert s[k] == b[k - |p|];
    }
    if n < |b| {
      assert s[|p| + n] == b[n];
      RunExact(s, |p|, |p| + n, cl);
    } else {
      RunToEnd(s, |p|, cl);
    }
  }

  lemma RunToEnd(s: string, a: nat, cl: CharClass)
    requires a <= |s|
    requires forall k :: a <= k < |s| ==> InClass(s[k], cl)
    ensures Run(s, a, cl) == |s| - a
  {
  }

  /** b opens with a header pass 8 looks for: one to six '#' and a space. */
  predicate HeaderOpener(b: string) {
    var n := Run(b, 0, HashSign); 1 <= n <= 6 && n < |b| && b[n] == ' '
  }

  /** b opens with an unindented bullet and a space. */
  predicate BulletOpener(b: string) {
    2 <= |b| && IsBulletMarker(b[0]) && b[1] == ' '
  }

  lemma OnlyOneNewline(a: string, b: string, j: nat)
    requires forall k :: 0 <= k < |a| ==> a[k] != '\n'
    requires forall k :: 0 <= k < |b| ==> b[k] != '\n'
    requires j < |a + "\n" + b| && j != |a|
    ensures (a + "\n" + b)[j] != '\n'
  {
    if j < |a| {
      assert (a + "\n" + b)[j] == a[j];
    } else {
      assert (a + "\n" + b)[j] == b[j - |a| - 1];
    }
  }

  lemma NeedsNewlineNext(r: Rule, s: string, k: nat)
    requires r.InsertsNewline() && k < |s| && (k + 1 >= |s| || s[k + 1] != '\n')
    ensures MatchAt(r, s, k).None?
  {
  }

  /**
   * A blank-line pass over text with a single '\n', at p: only the character
   * before it can start a match, and a match doubles that newline.
   */
  lemma OneNewline(r: Rule, s: string, p: nat)
    requires r.InsertsNewline() && p < |s| && s[p] == '\n'
    requires forall k :: 0 <= k < |s| && k != p ==> s[k] != '\n'
    ensures Replace(r, s) == if 0 < p && MatchAt(r, s, p - 1).Some? then s[..p] + "\n" + s[p..] else s
  {
    forall k | 0 <= k < |s| && k != p - 1
      ensures MatchAt(r, s, k).None?
    {
      NeedsNewlineNext(r, s, k);
    }
    if 0 < p && MatchAt(r, s, p - 1).Some? {
      var m := MatchAt(r, s, p - 1).value;
      ReplaceSingle(r, s, p - 1);
      assert m.replacement == s[p - 1..p] + "\n" + s[p..m.end];
      SpliceNewline(s, p, m.end);
    } else {
      ReplaceUnchangedIff(r, s);
    }
  }

  lemma SpliceNewline(s: string, p: nat, e: nat)
    requires 0 < p <= e <= |s|
    ensures s[..p - 1] + (s[p - 1..p] + "\n" + s[p..e]) + s[e..] == s[..p] + "\n" + s[p..]
  {
    assert s[..p - 1] + s[p - 1..p] == s[..p];
    assert s[p..e] + s[e..] == s[p..];
  }

  /** A blank-line pass over two lines a and b, neither holding '\n'. */
  lemma TwoLines(r: Rule, a: string, b: string)
    requires r.InsertsNewline()
    requires forall k :: 0 <= k < |a| ==> a[k] != '\n'
    requires forall k :: 0 <= k < |b| ==> b[k] != '\n'
    ensures var s := a + "\n" + b;
      Replace(r, s) == if 0 < |a| && MatchAt(r, s, |a| - 1).Some? then a + "\n\n" + b else s
  {
    var s := a + "\n" + b;
    forall k | 0 <= k < |s| && k != |a|
      ensures s[k] != '\n'
    {
      OnlyOneNewline(a, b, k);
    }
    OneNewline(r, s, |a|);
    DoubledNewline(a, b);
  }

  lemma DoubledNewline(a: string, b: string)
    ensures var s := a + "\n" + b; s[..|a|] + "\n" + s[|a|..] == a + "\n\n" + b
  {
    var s := a + "\n" + b;
    assert s[..|a|] == a;
    assert s[|a|..] == "\n" + b;
  }

  /**
   * Pass 8 over two lines: a blank line goes between a non-empty line and a
   * following "#{1,6} " header line, and nowhere else: not before the first
   * line, not where a is already empty, not before "1. x".
   */
  lemma BlankHeaderLines(a: string, b: string)
    requires forall k :: 0 <= k < |a| ==> a[k] != '\n'
    requires forall k :: 0 <= k < |b| ==> b[k] != '\n'
    ensures Replace(BlankBeforeHeader, a + "\n" + b) ==
      if 0 < |a| && HeaderOpener(b) then a + "\n\n" + b else a + "\n" + b
  {
    var s := a + "\n" + b;
    TwoLines(BlankBeforeHeader, a, b);
    if 0 < |a| {
      assert a[|a| - 1] != '\n';
      HeaderOpenerAfter(a, b);
      assert MatchAt(BlankBeforeHeader, s, |a| - 1) == BlankHeaderAt(s, |a| - 1);
    }
  }

  /** Pass 8 matches at the last character of a exactly when b opens with a header. */
  lemma HeaderOpenerAfter(a: string, b: string)
    requires 0 < |a| && a[|a| - 1] != '\n'
    ensures BlankHeaderAt(a + "\n" + b, |a| - 1).Some? <==> HeaderOpener(b)
  {
    var s := (a + "\n") + b;
    assert s[|a| - 1] == a[|a| - 1] && s[|a|] == '\n';
    BlankHeaderRule(s, |a| - 1);
    RunShift(a + "\n", b, HashSign);
    var n := Run(b, 0, HashSign);
    if n < |b| {
      assert s[|a| + 1 + n] == b[n];
    }
  }

  /** Pass 9 over two lines: a blank line goes between a non-empty line and an unindented "- ", "* " or "+ " line. */
  lemma BlankBulletLines(a: string, b: string)
    requires forall k :: 0 <= k < |a| ==> a[k] != '\n'
    requires forall k :: 0 <= k < |b| ==> b[k] != '\n'
    ensures Replace(BlankBeforeBullet, a + "\n" + b) ==
      if 0 < |a| && BulletOpener(b) then a + "\n\n" + b else a + "\n" + b
  {
    var s := a + "\n" + b;
    TwoLines(BlankBeforeBullet, a, b);
    if 0 < |a| {
      assert s[|a| - 1] == a[|a| - 1] && s[|a|] == '\n';
      if 2 <= |b| {
        assert s[|a| + 1] == b[0] && s[|a| + 2] == b[1];
      }
    }
  }

  // ---------------------------------------------------------------------------
  // Passes 1 and 7 look at one line at a time, so they split at line breaks.

  /** A match found in a suffix of a text, with its end moved to its place in the whole text. */
  function ShiftMatch(m: Option<Match>, off: nat): Option<Match> {
    match m
    case None => None
    case Some(x) => Some(Match(x.end + off, x.replacement))
  }

  /** Where the tables agree on a prefix a, the scan emits the scan of a first. */
  lemma {:induction false} ScanPrefix(s: string, t: seq<Option<Match>>, a: string, ta: seq<Option<Match>>, i: nat)
    requires Table(s, t) && Table(a, ta) && |a| <= |s| && i <= |a|
    requires forall k :: 0 <= k < |a| ==> s[k] == a[k] && t[k] == ta[k]
    ensures Scan(s, t, i) == Scan(a, ta, i) + Scan(s, t, |a|)
    decreases |a| - i
  {
    if i < |a| {
      var j := if ta[i].Some? then ta[i].value.end else i + 1;
      ScanPrefix(s, t, a, ta, j);
      ScanPrefixStep(s, t, a, ta, i, j, Scan(s, t, |a|));
    }
  }

  /** One step of ScanPrefix: the scans of s and a take the same step at i, whatever follows. */
  lemma ScanPrefixStep(s: string, t: seq<Option<Match>>, a: string, ta: seq<Option<Match>>, i: nat, j: nat, z: string)
    requires Table(s, t) && Table(a, ta) && i < |a| <= |s|
    requires s[i] == a[i] && t[i] == ta[i]
    requires j == if ta[i].Some? then ta[i].value.end else i + 1
    requires Scan(s, t, j) == Scan(a, ta, j) + z
    ensures Scan(s, t, i) == Scan(a, ta, i) + z
  {
    var y := Scan(a, ta, j);
    match ta[i]
    case Some(m) =>
      calc {
        Scan(s, t, i);
        m.replacement + (y + z);
        (m.replacement + y) + z;
        Scan(a, ta, i) + z;
      }
    case None =>
      calc {
        Scan(s, t, i);
        [a[i]] + (y + z);
        ([a[i]] + y) + z;
        Scan(a, ta, i) + z;
      }
  }

  /** Where the tables agree on a suffix b up to the shift, the scan from there is the scan of b. */
  lemma {:induction false} ScanSuffix(s: string, t: seq<Option<Match>>, b: string, tb: seq<Option<Match>>, off: nat, j: nat)
    requires Table(s, t) && Table(b, tb) && |s| == off + |b| && j <= |b|
    requires forall k :: off <= k < |s| ==> s[k] == b[k - off] && t[k] == ShiftMatch(tb[k - off], off)
    ensures Scan(s, t, off + j) == Scan(b, tb, j)
    decreases |b| - j
  {
    if j < |b| {
      var n := if tb[j].Some? then tb[j].value.end else j + 1;
      assert s[off + j] == b[j] && t[off + j] == ShiftMatch(tb[j], off);
      ScanSuffix(s, t, b, tb, off, n);
      ScanSuffixStep(s, t, b, tb, off, j, n);
    }
  }

  /** One step of ScanSuffix: the scans of s from off + j and of b from j take the same step. */
  lemma ScanSuffixStep(s: string, t: seq<Option<Match>>, b: string, tb: seq<Option<Match>>, off: nat, j: nat, n: nat)
    requires Table(s, t) && Table(b, tb) && |s| == off + |b| && j < |b|
    requires s[off + j] == b[j] && t[off + j] == ShiftMatch(tb[j], off)
    requires n == if tb[j].Some? then tb[j].value.end else j + 1
    requires Scan(s, t, off + n) == Scan(b, tb, n)
    ensures Scan(s, t, off + j) == Scan(b, tb, j)
  {
    match tb[j]
    case Some(m) =>
      assert Scan(s, t, off + j) == m.replacement + Scan(s, t, off + n);
      assert Scan(b, tb, j) == m.replacement + Scan(b, tb, n);
    case None =>
      assert Scan(s, t, off + j) == [s[off + j]] + Scan(s, t, off + n);
      assert Scan(b, tb, j) == [b[j]] + Scan(b, tb, n);
  }

  /**
   * A pass that finds the same matches in a and in b as in a + [c] + b, and
   * none at c, replaces each side of c on its own.
   */
  lemma SplitAt(r: Rule, a: string, c: char, b: string)
    requires forall k :: 0 <= k < |a| ==> MatchAt(r, a + [c] + b, k) == MatchAt(r, a, k)
    requires MatchAt(r, a + [c] + b, |a|) == None
    requires forall k :: |a| < k < |a + [c] + b| ==> MatchAt(r, a + [c] + b, k) == ShiftMatch(MatchAt(r, b, k - |a| - 1), |a| + 1)
    ensures Replace(r, a + [c] + b) == Replace(r, a) + [c] + Replace(r, b)
  {
    var s := a + [c] + b;
    PrefixTables(r, a, c, b);
    SuffixTables(r, a, c, b);
    assert s[|a|] == c && Matches(r, s)[|a|] == None;
    ScanSplit(s, Matches(r, s), a, Matches(r, a), c, b, Matches(r, b));
  }

  /** Where the matches in a + [c] + b agree with those in a, so do the match tables. */
  lemma PrefixTables(r: Rule, a: string, c: char, b: string)
    requires forall k :: 0 <= k < |a| ==> MatchAt(r, a + [c] + b, k) == MatchAt(r, a, k)
    ensures forall k :: 0 <= k < |a| ==> (a + [c] + b)[k] == a[k] && Matches(r, a + [c] + b)[k] == Matches(r, a)[k]
  {
    var s := a + [c] + b;
    var t, ta := Matches(r, s), Matches(r, a);
    forall k | 0 <= k < |a|
      ensures s[k] == a[k] && t[k] == ta[k]
    {
      assert t[k] == MatchAt(r, s, k) && ta[k] == MatchAt(r, a, k);
    }
  }

  /** Where the matches in a + [c] + b are those in b moved right, so are the table entries. */
  lemma SuffixTables(r: Rule, a: string, c: char, b: string)
    requires forall k :: |a| < k < |a + [c] + b| ==> MatchAt(r, a + [c] + b, k) == ShiftMatch(MatchAt(r, b, k - |a| - 1), |a| + 1)
    ensures forall k :: |a| + 1 <= k < |a + [c] + b| ==>
              (a + [c] + b)[k] == b[k - (|a| + 1)] && Matches(r, a + [c] + b)[k] == ShiftMatch(Matches(r, b)[k - (|a| + 1)], |a| + 1)
  {
    var s := a + [c] + b;
    var t, tb := Matches(r, s), Matches(r, b);
    forall k | |a| + 1 <= k < |s|
      ensures s[k] == b[k - (|a| + 1)] && t[k] == ShiftMatch(tb[k - (|a| + 1)], |a| + 1)
    {
      assert t[k] == MatchAt(r, s, k) && tb[k - (|a| + 1)] == MatchAt(r, b, k - (|a| + 1));
    }
  }

  /** The scan of a text that is a, then c, then b, for tables that agree with those of a and b and have no match at c. */
  lemma ScanSplit(s: string, t: seq<Option<Match>>, a: string, ta: seq<Option<Match>>, c: char, b: string, tb: seq<Option<Match>>)
    requires Table(s, t) && Table(a, ta) && Table(b, tb) && |s| == |a| + 1 + |b|
    requires forall k :: 0 <= k < |a| ==> s[k] == a[k] && t[k] == ta[k]
    requires s[|a|] == c && t[|a|] == None
    requires forall k :: |a| + 1 <= k < |s| ==> s[k] == b[k - (|a| + 1)] && t[k] == ShiftMatch(tb[k - (|a| + 1)], |a| + 1)
    ensures Scan(s, t, 0) == Scan(a, ta, 0) + [c] + Scan(b, tb, 0)
  {
    ScanPrefix(s, t, a, ta, 0);
    ScanSuffix(s, t, b, tb, |a| + 1, 0);
    assert Scan(s, t, |a|) == [c] + Scan(s, t, |a| + 1);
  }

  /** A run that stops before c is the same run in a and in a + [c] + b. */
  lemma {:induction false} RunPrefix(a: string, c: char, b: string, k: nat, cl: CharClass)
    requires k <= |a| && !InClass(c, cl)
    ensures Run(a + [c] + b, k, cl) == Run(a, k, cl)
    decreases |a| - k
  {
    if k < |a| {
      assert (a + [c] + b)[k] == a[k];
      RunPrefix(a, c, b, k + 1, cl);
    } else {
      assert (a + [c] + b)[k] == c;
    }
  }

  /** A run inside the suffix b is the same run in p + b. */
  lemma {:induction false} RunSuffix(p: string, b: string, j: nat, cl: CharClass)
    requires j <= |b|
    ensures Run(p + b, |p| + j, cl) == Run(b, j, cl)
    decreases |b| - j
  {
    if j < |b| {
      assert (p + b)[|p| + j] == b[j];
      RunSuffix(p, b, j + 1, cl);
    }
  }

  /** The give-back of pass 1 inside a does not see past its end, where c is not a space. */
  lemma {:induction false} HeaderTryPrefix(a: string, c: char, b: string, k: nat, n: nat)
    requires k + n <= |a| && c != ' '
    ensures HeaderTry(a + [c] + b, k, n) == HeaderTry(a, k, n)
    decreases n
  {
    var s := a + [c] + b;
    if n > 0 {
      assert s[k..k + n] == a[k..k + n];
      assert NotFollowedBy(s, k + n, ' ') == NotFollowedBy(a, k + n, ' ') by {
        if k + n < |a| {
          assert s[k + n] == a[k + n];
        } else {
          assert s[k + n] == c;
        }
      }
      HeaderTryPrefix(a, c, b, k, n - 1);
    }
  }

  /** The give-back of pass 1 inside the suffix b. */
  lemma HeaderTrySuffix(p: string, b: string, j: nat, n: nat)
    requires j + n <= |b|
    ensures HeaderTry(p + b, |p| + j, n) == ShiftMatch(HeaderTry(b, j, n), |p|)
  {
    var s := p + b;
    forall k | |p| <= k < |s|
      ensures s[k] == b[k - |p|]
    {
    }
    HeaderTryShift(s, b, |p|, j, n);
  }

  /** The give-back of pass 1 in a text whose characters from off on are those of b. */
  lemma {:induction false} HeaderTryShift(s: string, b: string, off: nat, j: nat, n: nat)
    requires |s| == off + |b| && j + n <= |b|
    requires forall k :: off <= k < |s| ==> s[k] == b[k - off]
    ensures HeaderTry(s, off + j, n) == ShiftMatch(HeaderTry(b, j, n), off)
    decreases n
  {
    var q := off + j;
    if n > 0 {
      HeaderTryShift(s, b, off, j, n - 1);
      if j + n < |b| {
        assert s[q + n] == b[j + n];
      }
      if NotFollowedBy(b, j + n, ' ') {
        assert s[q..q + n] == b[j..j + n];
      }
    }
  }

  /** Pass 1 at a position of a sees the same thing in a + [c] + b, for a line terminator c. */
  lemma HeaderAtPrefix(a: string, c: char, b: string, k: nat)
    requires IsLineTerminator(c) && k < |a|
    ensures HeaderAt(a + [c] + b, k) == HeaderAt(a, k)
  {
    var s := a + [c] + b;
    if k > 0 {
      assert s[k - 1] == a[k - 1];
    }
    RunPrefix(a, c, b, k, HashSign);
    HeaderTryPrefix(a, c, b, k, Min(Run(a, k, HashSign), 6));
  }

  /** Pass 1 at a position of b finds the match it finds in b alone, moved by |a| + 1. */
  lemma HeaderAtSuffix(a: string, c: char, b: string, k: nat)
    requires IsLineTerminator(c) && |a| < k < |a| + 1 + |b|
    ensures HeaderAt(a + [c] + b, k) == ShiftMatch(HeaderAt(b, k - |a| - 1), |a| + 1)
  {
    var p := a + [c];
    var s := p + b;
    var j := k - |p|;
    assert AtLineStart(s, k) == AtLineStart(b, j) by {
      if j == 0 {
        assert s[k - 1] == c;
      } else {
        assert s[k - 1] == b[j - 1];
      }
    }
    RunSuffix(p, b, j, HashSign);
    var n := Min(Run(b, j, HashSign), 6);
    HeaderTrySuffix(p, b, j, n);
    if AtLineStart(b, j) {
      calc {
        HeaderAt(s, k);
        HeaderTry(s, k, Min(Run(s, k, HashSign), 6));
        { assert k == |p| + j && Run(s, k, HashSign) == Run(b, j, HashSign); }
        HeaderTry(s, k, n);
        HeaderTry(p + b, |p| + j, n);
        ShiftMatch(HeaderTry(b, j, n), |p|);
        ShiftMatch(HeaderAt(b, j), |p|);
      }
    }
  }

  /** Pass 1 over a text with a line break splits into pass 1 over each side: `^` anchors every line. */
  lemma HeaderLines(a: string, c: char, b: string)
    requires IsLineTerminator(c)
    ensures Replace(HeaderSpace, a + [c] + b) == Replace(HeaderSpace, a) + [c] + Replace(HeaderSpace, b)
  {
    var s := a + [c] + b;
    forall k | 0 <= k < |a|
      ensures MatchAt(HeaderSpace, s, k) == MatchAt(HeaderSpace, a, k)
    {
      HeaderAtPrefix(a, c, b, k);
    }
    assert s[|a|] == c;
    forall k | |a| < k < |s|
      ensures MatchAt(HeaderSpace, s, k) == ShiftMatch(MatchAt(HeaderSpace, b, k - |a| - 1), |a| + 1)
    {
      HeaderAtSuffix(a, c, b, k);
    }
    SplitAt(HeaderSpace, a, c, b);
  }

  /** Pass 7 at a position of a sees the same thing in a + [c] + b, for a line terminator c. */
  lemma QuoteAtPrefix(a: string, c: char, b: string, k: nat)
    requires IsLineTerminator(c) && k < |a|
    ensures QuoteAt(a + [c] + b, k) == QuoteAt(a, k)
  {
    var s := a + [c] + b;
    if k > 0 {
      assert s[k - 1] == a[k - 1];
    }
    assert s[k] == a[k] && s[k..k + 1] == a[k..k + 1];
    if k + 1 < |a| {
      assert s[k + 1] == a[k + 1];
    } else {
      assert s[k + 1] == c;
    }
  }

  /** Pass 7 at a position of b finds the match it finds in b alone, moved by |a| + 1. */
  lemma QuoteAtSuffix(a: string, c: char, b: string, i: nat)
    requires IsLineTerminator(c) && |a| < i < |a| + 1 + |b|
    ensures QuoteAt(a + [c] + b, i) == ShiftMatch(QuoteAt(b, i - |a| - 1), |a| + 1)
  {
    var s := a + [c] + b;
    var j := i - |a| - 1;
    if j == 0 {
      assert s[|a|] == c;
    } else {
      assert s[i - 1] == b[j - 1];
    }
    assert s[i] == b[j] && s[i..i + 1] == b[j..j + 1];
    if j + 1 < |b| {
      assert s[i + 1] == b[j + 1];
    }
  }

  /** Pass 7 over a text with a line break splits into pass 7 over each side. */
  lemma QuoteLines(a: string, c: char, b: string)
    requires IsLineTerminator(c)
    ensures Replace(QuoteSpace, a + [c] + b) == Replace(QuoteSpace, a) + [c] + Replace(QuoteSpace, b)
  {
    var s := a + [c] + b;
    forall k | 0 <= k < |a|
      ensures MatchAt(QuoteSpace, s, k) == MatchAt(QuoteSpace, a, k)
    {
      QuoteAtPrefix(a, c, b, k);
    }
    assert s[|a|] == c;
    forall k | |a| < k < |s|
      ensures MatchAt(QuoteSpace, s, k) == ShiftMatch(MatchAt(QuoteSpace, b, k - |a| - 1), |a| + 1)
    {
      QuoteAtSuffix(a, c, b, k);
    }
    SplitAt(QuoteSpace, a, c, b);
  }

  /** formatMarkdown is the nine passes applied one after the other, in the order of the source. */
  lemma FormatSteps(s: string)
    ensures FormatMarkdown(s) ==
      Replace(BlankBeforeBullet, Replace(BlankBeforeHeader, Replace(QuoteSpace,
        Replace(ItalicSqueeze, Replace(UnderscoreSqueeze, Replace(BoldSqueeze,
          Replace(NumberSpace, Replace(BulletSpace, Replace(HeaderSpace, s)))))))))
  {
    var p := Pipeline;
    assert p[1..][1..][1..][1..][1..][1..][1..][1..][1..] == [];
  }
}
