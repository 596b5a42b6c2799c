/**
 * The local Markdown normaliser `formatMarkdown` (services/formatService.ts):
 * nine global regular-expression replacements applied one after another.
 *
 * Each pattern is simulated the way a backtracking JavaScript regex engine
 * runs it: a greedy quantifier first takes as many characters as it can and
 * then gives them back one at a time, a lazy one starts with one character
 * and takes more only when the rest fails, and every anchor and lookaround
 * is read in the string the pass started from. A global replacement scans
 * from the left, takes the leftmost match, continues right after it, and
 * copies every character no match starts at (no pattern here can match the
 * empty string, so no empty-match step is needed).
 */
module FormatService {
  import opened JsText
  import opened Wrappers

  /** One match found at some index i: it covers s[i..end] and is replaced by `replacement`. */
  datatype Match = Match(end: nat, replacement: string)

  /** The nine replacements, in the order formatMarkdown applies them. */
  datatype Rule =
    | HeaderSpace        // space after 1-6 leading '#'
    | BulletSpace        // space after a leading '-', '*' or '+' (indentation kept)
    | NumberSpace        // space after a leading "<digits>."
    | BoldSqueeze        // "** x **" -> "**x**"
    | UnderscoreSqueeze  // "__ x __" -> "__x__"
    | ItalicSqueeze      // "* x *" -> "*x*", not next to another '*'
    | QuoteSpace         // space after a leading '>'
    | BlankBeforeHeader  // blank line before a "#{1,6} " line
    | BlankBeforeBullet  // blank line before an unindented "- ", "* " or "+ " line
  {
    /** The rules whose replacement is the match followed by one space. */
    predicate InsertsSpace() {
      HeaderSpace? || BulletSpace? || NumberSpace? || QuoteSpace?
    }

    /** The rules whose replacement doubles the newline inside the match. */
    predicate InsertsNewline() {
      BlankBeforeHeader? || BlankBeforeBullet?
    }

    /** The rules that delete the padding inside emphasis delimiters. */
    predicate Squeezes() {
      BoldSqueeze? || UnderscoreSqueeze? || ItalicSqueeze?
    }
  }

  /** The characters a quantifier of the patterns repeats. */
  datatype CharClass = HashSign | Blank | AnySpace | Digit

  predicate InClass(c: char, cl: CharClass) {
    match cl
    case HashSign => c == '#'
    case Blank => c == ' '
    case AnySpace => IsSpace(c)
    case Digit => IsDigit(c)
  }

  /** The length of the longest run of `cl` characters starting at i: the first choice of a greedy quantifier. */
  function Run(s: string, i: nat, cl: CharClass): (n: nat)
    requires i <= |s|
    ensures i + n <= |s|
    ensures i + n == |s| || !InClass(s[i + n], cl)
    decreases |s| - i
  {
    if i < |s| && InClass(s[i], cl) then 1 + Run(s, i + 1, cl) else 0
  }

  function Min(a: nat, b: nat): nat {
    if a <= b then a else b
  }

  /** The negative lookahead "not followed by c" at index j. */
  predicate NotFollowedBy(s: string, j: nat, c: char) {
    j >= |s| || s[j] != c
  }

  predicate IsBulletMarker(c: char) {
    c == '-' || c == '*' || c == '+'
  }

  // ---------------------------------------------------------------------------
  // Pass 1 (services/formatService.ts:13): at a line start, one to six '#'
  // not followed by a space; the '#'s are kept and a space is added.

  function HeaderAt(s: string, i: nat): (m: Option<Match>)
    requires i < |s|
    ensures m.Some? ==> i < m.value.end <= |s| && m.value.replacement == Substring(s, i, m.value.end) + " "
  {
    if AtLineStart(s, i) then HeaderTry(s, i, Min(Run(s, i, HashSign), 6)) else None
  }

  /** The greedy `#{1,6}` giving back one '#' at a time until the lookahead holds. */
  function HeaderTry(s: string, i: nat, k: nat): (m: Option<Match>)
    requires i + k <= |s|
    ensures m.Some? ==> i < m.value.end <= i + k && m.value.replacement == Substring(s, i, m.value.end) + " "
    decreases k
  {
    if k == 0 then None
    else if NotFollowedBy(s, i + k, ' ') then Some(Match(i + k, s[i..i + k] + " "))
    else HeaderTry(s, i, k - 1)
  }

  // ---------------------------------------------------------------------------
  // Pass 2 (services/formatService.ts:16): at a line start, any white space
  // (newlines included), then one bullet marker not followed by a space.

  function BulletAt(s: string, i: nat): (m: Option<Match>)
    requires i < |s|
    ensures m.Some? ==> i < m.value.end <= |s| && m.value.replacement == Substring(s, i, m.value.end) + " "
  {
    if AtLineStart(s, i) then BulletTry(s, i, Run(s, i, AnySpace)) else None
  }

  /** The greedy `\s*` giving back one character at a time until a marker follows. */
  function BulletTry(s: string, i: nat, w: nat): (m: Option<Match>)
    requires i + w <= |s|
    ensures m.Some? ==> i < m.value.end <= |s| && m.value.replacement == Substring(s, i, m.value.end) + " "
    decreases w
  {
    if i + w < |s| && IsBulletMarker(s[i + w]) && NotFollowedBy(s, i + w + 1, ' ') then
      Some(Match(i + w + 1, s[i..i + w + 1] + " "))
    else if w == 0 then None
    else BulletTry(s, i, w - 1)
  }

  // ---------------------------------------------------------------------------
  // Pass 3 (services/formatService.ts:19): at a line start, white space, a
  // run of digits and a '.' not followed by a space.

  function NumberAt(s: string, i: nat): (m: Option<Match>)
    requires i < |s|
    ensures m.Some? ==> i < m.value.end <= |s| && m.value.replacement == Substring(s, i, m.value.end) + " "
  {
    if AtLineStart(s, i) then NumberSpaceTry(s, i, Run(s, i, AnySpace)) else None
  }

  /** The greedy `\s*`, backtracking over the digit part. */
  function NumberSpaceTry(s: string, i: nat, w: nat): (m: Option<Match>)
    requires i + w <= |s|
    ensures m.Some? ==> i < m.value.end <= |s| && m.value.replacement == Substring(s, i, m.value.end) + " "
    decreases w
  {
    var r := NumberDigitTry(s, i, i + w, Run(s, i + w, Digit));
    if r.Some? then r
    else if w == 0 then None
    else NumberSpaceTry(s, i, w - 1)
  }

  /** The greedy `\d+` (digits start at j) giving back one digit at a time until a '.' follows. */
  function NumberDigitTry(s: string, i: nat, j: nat, n: nat): (m: Option<Match>)
    requires i <= j && j + n <= |s|
    ensures m.Some? ==> i < m.value.end <= |s| && m.value.replacement == Substring(s, i, m.value.end) + " "
    decreases n
  {
    if n == 0 then None
    else if j + n < |s| && s[j + n] == '.' && NotFollowedBy(s, j + n + 1, ' ') then
      Some(Match(j + n + 1, s[i..j + n + 1] + " "))
    else NumberDigitTry(s, i, j, n - 1)
  }

  // ---------------------------------------------------------------------------
  // Passes 4-6 (services/formatService.ts:22-24): a delimiter, one or more
  // spaces, the shortest group of non-line-terminator characters, one or
  // more spaces and the delimiter again; the padding is removed. For the
  // single '*' the opening delimiter must not follow a '*' and the closing
  // one must not be followed by a '*'.

  /** The delimiter of a squeeze pass: one mark, or the mark twice. */
  datatype Delim = Delim(mark: char, double: bool) {
    function Width(): nat {
      if double then 2 else 1
    }

    function Text(): string {
      if double then [mark, mark] else [mark]
    }
  }

  /** The delimiter d occurs in s at j. */
  predicate DelimAt(s: string, j: nat, d: Delim) {
    j + d.Width() <= |s| && s[j] == d.mark && (d.double ==> s[j + 1] == d.mark)
  }

  /** Where the parts of a squeeze match lie: the kept group s[groupStart..groupEnd], the match end. */
  datatype Span = Span(groupStart: nat, groupEnd: nat, end: nat)

  predicate AllBlanks(s: string, a: nat, b: nat)
    requires a <= b <= |s|
  {
    forall k :: a <= k < b ==> s[k] == ' '
  }

  predicate NoTerminator(s: string, a: nat, b: nat)
    requires a <= b <= |s|
  {
    forall k :: a <= k < b ==> !IsLineTerminator(s[k])
  }

  /** The shape a squeeze match has: delimiter, padding, group, padding, delimiter, all on one line. */
  predicate SqueezeShape(s: string, i: nat, d: Delim, sp: Span) {
    && i + d.Width() < sp.groupStart < sp.groupEnd && sp.groupEnd + d.Width() < sp.end <= |s|
    && DelimAt(s, i, d)
    && AllBlanks(s, i + d.Width(), sp.groupStart)
    && NoTerminator(s, sp.groupStart, sp.groupEnd)
    && AllBlanks(s, sp.groupEnd, sp.end - d.Width())
    && DelimAt(s, sp.end - d.Width(), d)
  }

  /** The closing ` +` and delimiter at e: greedy spaces (q of them first) giving back one at a time. */
  function CloseTry(s: string, e: nat, d: Delim, guarded: bool, q: nat): (r: Option<nat>)
    requires e + q <= |s|
    ensures r.Some? ==> e + d.Width() < r.value <= |s|
    decreases q
  {
    if q == 0 then None
    else if DelimAt(s, e + q, d) && (!guarded || NotFollowedBy(s, e + q + d.Width(), '*')) then
      Some(e + q + d.Width())
    else CloseTry(s, e, d, guarded, q - 1)
  }

  /** The lazy `(.+?)` that currently spans s[gs..e]: try to close here, else take one more character. */
  function LazyGroup(s: string, i: nat, d: Delim, guarded: bool, gs: nat, e: nat): (r: Option<Span>)
    requires gs < e <= |s|
    ensures r.Some? ==> r.value.groupStart == gs < r.value.groupEnd && r.value.groupEnd + d.Width() < r.value.end <= |s|
    decreases |s| - e
  {
    match CloseTry(s, e, d, guarded, Run(s, e, Blank))
    case Some(end) => Some(Span(gs, e, end))
    case None =>
      if e < |s| && !IsLineTerminator(s[e]) then LazyGroup(s, i, d, guarded, gs, e + 1)
      else None
  }

  /** The opening ` +` (p spaces first), giving back one space at a time to the group. */
  function OpenTry(s: string, i: nat, d: Delim, guarded: bool, p: nat): (r: Option<Span>)
    requires i + d.Width() + p <= |s|
    ensures r.Some? ==> i + d.Width() < r.value.groupStart < r.value.groupEnd && r.value.groupEnd + d.Width() < r.value.end <= |s|
    decreases p
  {
    if p == 0 then None
    else
      var gs := i + d.Width() + p;
      var r := if gs < |s| && !IsLineTerminator(s[gs]) then LazyGroup(s, i, d, guarded, gs, gs + 1) else None;
      if r.Some? then r else OpenTry(s, i, d, guarded, p - 1)
  }

  /** The squeeze pattern with delimiter d tried at i; `guarded` adds the single-'*' lookarounds. */
  function SqueezeSpan(s: string, i: nat, d: Delim, guarded: bool): (r: Option<Span>)
    ensures r.Some? ==> i + d.Width() < r.value.groupStart < r.value.groupEnd && r.value.groupEnd + d.Width() < r.value.end <= |s|
  {
    if DelimAt(s, i, d) && (!guarded || i == 0 || (i <= |s| && s[i - 1] != '*')) then
      OpenTry(s, i, d, guarded, Run(s, i + d.Width(), Blank))
    else None
  }

  function SqueezeAt(s: string, i: nat, d: Delim, guarded: bool): (m: Option<Match>)
    ensures m.Some? ==> i < m.value.end <= |s| && |m.value.replacement| + 2 <= m.value.end - i
  {
    match SqueezeSpan(s, i, d, guarded)
    case Some(sp) => Some(Match(sp.end, d.Text() + s[sp.groupStart..sp.groupEnd] + d.Text()))
    case None => None
  }

  // ---------------------------------------------------------------------------
  // Pass 7 (services/formatService.ts:27): at a line start, '>' not followed by a space.

  function QuoteAt(s: string, i: nat): (m: Option<Match>)
    requires i < |s|
    ensures m.Some? ==> m.value.end == i + 1 && m.value.replacement == Substring(s, i, m.value.end) + " "
  {
    if AtLineStart(s, i) && s[i] == '>' && NotFollowedBy(s, i + 1, ' ') then
      Some(Match(i + 1, s[i..i + 1] + " "))
    else None
  }

  // ---------------------------------------------------------------------------
  // Passes 8 and 9 (services/formatService.ts:30,33): a character other than
  // '\n', a '\n', then a header opener "#{1,6} " or an unindented bullet and
  // space; the newline is doubled.

  function BlankHeaderAt(s: string, i: nat): (m: Option<Match>)
    requires i < |s|
    ensures m.Some? ==> i + 1 < m.value.end <= |s|
    ensures m.Some? ==> m.value.replacement == s[i..i + 1] + "\n" + Substring(s, i + 1, m.value.end)
  {
    if i + 1 < |s| && s[i] != '\n' && s[i + 1] == '\n' then BlankHeaderTry(s, i, Min(Run(s, i + 2, HashSign), 6))
    else None
  }

  /** The greedy `#{1,6}` of the header opener, giving back '#'s until a space follows. */
  function BlankHeaderTry(s: string, i: nat, k: nat): (m: Option<Match>)
    requires i + 2 + k <= |s|
    ensures m.Some? ==> i + 1 < m.value.end <= |s|
    ensures m.Some? ==> m.value.replacement == s[i..i + 1] + "\n" + Substring(s, i + 1, m.value.end)
    decreases k
  {
    if k == 0 then None
    else if i + 2 + k < |s| && s[i + 2 + k] == ' ' then
      Some(Match(i + 3 + k, s[i..i + 1] + "\n" + s[i + 1..i + 3 + k]))
    else BlankHeaderTry(s, i, k - 1)
  }

  function BlankBulletAt(s: string, i: nat): (m: Option<Match>)
    requires i < |s|
    ensures m.Some? ==> i + 1 < m.value.end <= |s|
    ensures m.Some? ==> m.value.replacement == s[i..i + 1] + "\n" + Substring(s, i + 1, m.value.end)
  {
    if i + 3 < |s| && s[i] != '\n' && s[i + 1] == '\n' && IsBulletMarker(s[i + 2]) && s[i + 3] == ' ' then
      Some(Match(i + 4, s[i..i + 1] + "\n" + s[i + 1..i + 4]))
    else None
  }

  // ---------------------------------------------------------------------------
  // The global replacement engine and the pipeline.

  /** The delimiter of a squeeze rule: `**`, `__` or a single `*`. */
  function Delimiter(r: Rule): (d: Delim)
    requires r.Squeezes()
    ensures d.mark != ' ' && !IsLineTerminator(d.mark)
  {
    if r.BoldSqueeze? then Delim('*', true) else if r.UnderscoreSqueeze? then Delim('_', true) else Delim('*', false)
  }

  /** The match of rule r starting exactly at index i of the pass input s, if any. */
  function MatchAt(r: Rule, s: string, i: nat): (m: Option<Match>)
    requires i < |s|
    ensures m.Some? ==> i < m.value.end <= |s|
    ensures m.Some? && r.InsertsSpace() ==> m.value.replacement == Substring(s, i, m.value.end) + " "
    ensures m.Some? && r.InsertsNewline() ==> m.value.replacement == s[i..i + 1] + "\n" + Substring(s, i + 1, m.value.end)
    ensures m.Some? && r.Squeezes() ==> |m.value.replacement| + 2 <= m.value.end - i
  {
    if r.InsertsSpace() then SpaceMatchAt(r, s, i)
    else if r.BlankBeforeHeader? then BlankHeaderAt(s, i)
    else if r.BlankBeforeBullet? then BlankBulletAt(s, i)
    else SqueezeAt(s, i, Delimiter(r), r.ItalicSqueeze?)
  }

  /** The match of one of the four passes that insert a space after what they find. */
  function SpaceMatchAt(r: Rule, s: string, i: nat): (m: Option<Match>)
    requires i < |s| && r.InsertsSpace()
    ensures m.Some? ==> i < m.value.end <= |s| && m.value.replacement == Substring(s, i, m.value.end) + " "
  {
    if r.HeaderSpace? then HeaderAt(s, i)
    else if r.BulletSpace? then BulletAt(s, i)
    else if r.NumberSpace? then NumberAt(s, i)
    else QuoteAt(s, i)
  }

  /** The match of rule r tried at every index of s. */
  function Matches(r: Rule, s: string): (t: seq<Option<Match>>)
    ensures |t| == |s| && Table(s, t)
    ensures forall k :: 0 <= k < |s| ==> t[k] == MatchAt(r, s, k)
  {
    seq(|s|, k => if 0 <= k < |s| then MatchAt(r, s, k) else None)
  }

  /** t holds, for each index of s, a match that starts there and ends inside s, or none. */
  predicate Table(s: string, t: seq<Option<Match>>) {
    |t| == |s| && forall k :: 0 <= k < |t| && t[k].Some? ==> k < t[k].value.end <= |s|
  }

  /**
   * The output of a global replacement over s from index i on, given the
   * matches t: at a match its replacement is emitted and the scan resumes
   * where the match ended; elsewhere one character is copied.
   */
  function Scan(s: string, t: seq<Option<Match>>, i: nat): string
    requires Table(s, t) && i <= |s|
    decreases |s| - i
  {
    if i == |s| then []
    else
      match t[i]
      case Some(m) => m.replacement + Scan(s, t, m.end)
      case None => [s[i]] + Scan(s, t, i + 1)
  }

  /** `s.replace(pattern, replacement)` for the global pattern of rule r. */
  function Replace(r: Rule, s: string): string {
    Scan(s, Matches(r, s), 0)
  }

  /** The rules in the order services/formatService.ts:13-33 runs them. */
  const Pipeline: seq<Rule> := [HeaderSpace, BulletSpace, NumberSpace, BoldSqueeze, UnderscoreSqueeze,
                                ItalicSqueeze, QuoteSpace, BlankBeforeHeader, BlankBeforeBullet]

  /** Applies the rules of rs to s, first rule first. */
  function ApplyAll(rs: seq<Rule>, s: string): string
    decreases |rs|
  {
    if rs == [] then s else ApplyAll(rs[1..], Replace(rs[0], s))
  }

  /** formatMarkdown without its cosmetic delay. */
  function FormatMarkdown(text: string): string {
    ApplyAll(Pipeline, text)
  }
}
