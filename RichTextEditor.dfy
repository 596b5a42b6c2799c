/**
 * The synchronisation bridge of the rich-text editor
 * (components/RichTextEditor.tsx): a contentEditable surface whose markup
 * is published to the parent through `onChange`, and an `initialHtml` prop
 * that the parent feeds back and that is written into the surface only when
 * the change did not come from the surface itself.
 *
 * The component's own state is the surface markup (`innerHTML`), whether the
 * surface is mounted (`editorRef.current`), and the `isInternalChange` flag;
 * beside it the model keeps the deferred flag resets still scheduled, the
 * last `initialHtml` the effect ran for (React re-runs the effect only when
 * it changes), and the log of `onChange` calls.
 *
 * `Bridge` and the functions over it are the specification; the class
 * `SyncBridge` updates the same fields in place and is proved to follow it.
 */
module RichTextEditor {

  import opened Wrappers

  datatype Bridge = Bridge(
    attached: bool,           // editorRef.current is set
    markup: string,           // editorRef.current.innerHTML
    internalChange: bool,     // isInternalChange.current
    pendingResets: nat,       // flag resets scheduled with setTimeout(…, 0) and not yet run
    prop: string,             // the initialHtml the sync effect last ran for
    published: seq<string>)   // the arguments of every onChange call so far

  /** What the surface and the toolbar can do to the bridge. */
  datatype Event =
    | Input(newMarkup: string)                  // the user edited the surface, and its input event ran handleInput
    | Command(newMarkup: string)                // a toolbar button ran execCommand, leaving newMarkup on the surface
    | Link(url: Option<string>, newMarkup: string) // the link button: prompt's answer, and the surface after createLink
    | Rerender(value: string)                  // the parent renders with initialHtml = value
    | Tick                                     // one deferred flag reset runs
    | Unmount                                  // React detaches the surface and clears the ref


  /** The flag is only ever set together with a reset that will clear it. */
  predicate Valid(b: Bridge) {
    b.internalChange ==> b.pendingResets > 0
  }

  /** The sync effect's body (lines 32-35), run with `initialHtml` = value. */
  function SyncEffect(b: Bridge, value: string): (r: Bridge)
    ensures r == b || (r == b.(markup := value) && value != b.markup)
  {
    if b.attached && !b.internalChange && value != b.markup then
      if value == "" && b.markup == "<br>" then b
      else b.(markup := value)
    else b
  }

  /** A render with `initialHtml` = value: the effect runs only if value differs from the last one. */
  function RerenderWith(b: Bridge, value: string): (r: Bridge)
    ensures r.prop == value && r.published == b.published && r.internalChange == b.internalChange
  {
    if value == b.prop then b else SyncEffect(b.(prop := value), value)
  }

  /** Mounting with `initialHtml`: the surface starts empty, and the effect's first run fills it. */
  function Mount(initialHtml: string): (b: Bridge)
    ensures b.attached && b.markup == initialHtml && !b.internalChange && b.pendingResets == 0
    ensures b.prop == initialHtml && b.published == [] && Valid(b)
  {
    SyncEffect(Bridge(true, "", false, 0, initialHtml, []), initialHtml)
  }

  /** handleInput (lines 38-46): set the flag, publish the current markup once, schedule the reset. */
  function Handled(b: Bridge): Bridge {
    if b.attached then
      b.(internalChange := true, published := b.published + [b.markup], pendingResets := b.pendingResets + 1)
    else b
  }

  /**
   * The user edited the surface, which now holds newMarkup, and its input
   * event (line 110) runs handleInput. An unmounted surface receives no input.
   */
  function InputWith(b: Bridge, newMarkup: string): Bridge {
    if b.attached then Handled(b.(markup := newMarkup)) else b
  }

  /**
   * A toolbar command (lines 48-54) on a mounted surface: document.execCommand
   * leaves newMarkup on the surface and, when that changes the markup, fires
   * the surface's input event, whose handler (line 110) runs handleInput
   * while the command is still running; then line 53 calls handleInput
   * again. A command that changes nothing fires no input event.
   */
  function CommandWith(b: Bridge, newMarkup: string): Bridge {
    if !b.attached then b
    else if newMarkup != b.markup then Handled(Handled(b.(markup := newMarkup)))
    else Handled(b)
  }

  /** The link button (lines 95-96): the createLink command runs only for a non-empty answer to the prompt. */
  function LinkWith(b: Bridge, url: Option<string>, newMarkup: string): Bridge {
    if url.Some? && url.value != "" then CommandWith(b, newMarkup) else b
  }

  /** The deferred reset (line 44) clears the flag, whatever other resets are still pending. */
  function TickOnce(b: Bridge): Bridge {
    if b.pendingResets == 0 then b
    else b.(internalChange := false, pendingResets := b.pendingResets - 1)
  }

  function Step(b: Bridge, e: Event): Bridge {
    match e
    case Input(m) => InputWith(b, m)
    case Command(m) => CommandWith(b, m)
    case Link(url, m) => LinkWith(b, url, m)
    case Rerender(v) => RerenderWith(b, v)
    case Tick => TickOnce(b)
    case Unmount => b.(attached := false)
  }

  function Run(b: Bridge, es: seq<Event>): Bridge
    decreases |es|
  {
    if es == [] then b else Run(Step(b, es[0]), es[1..])
  }

  // ---------------------------------------------------------------------------
  // Properties.

  /** An input on a mounted surface sets the flag and publishes exactly the new markup, once. */
  lemma InputPublishesOnce(b: Bridge, m: string)
    ensures var r := InputWith(b, m);
      if b.attached then
        && r.markup == m && r.internalChange && r.pendingResets == b.pendingResets + 1
        && r.published == b.published + [m] && r.prop == b.prop && r.attached
      else r == b
  {
  }

  /**
   * A toolbar command on a mounted surface leaves the new markup there and
   * sets the flag; it publishes that markup twice, with two resets scheduled,
   * when the command changed the surface, and once, with one reset, when it
   * did not. On an unmounted surface it changes nothing.
   */
  lemma CommandPublishes(b: Bridge, m: string)
    ensures var r := CommandWith(b, m);
      if b.attached then
        && r.markup == m && r.internalChange && r.prop == b.prop && r.attached
        && (m != b.markup ==> r.published == b.published + [m, m] && r.pendingResets == b.pendingResets + 2)
        && (m == b.markup ==> r.published == b.published + [m] && r.pendingResets == b.pendingResets + 1)
      else r == b
  {
  }

  /** No event except the deferred reset clears the flag. */
  lemma FlagClearsOnlyOnTick(b: Bridge, e: Event)
    requires b.internalChange && !Step(b, e).internalChange
    ensures e.Tick?
  {
  }

  /** Every event keeps the flag backed by a pending reset. */
  lemma StepKeepsValid(b: Bridge, e: Event)
    requires Valid(b)
    ensures Valid(Step(b, e))
  {
  }

  /**
   * A render writes the surface exactly when the value is new to the effect,
   * the surface is mounted, the flag is clear, the value differs from the
   * markup, and it is not the empty value against a lone "<br>"; the surface
   * then holds the value. Otherwise only the remembered value changes.
   */
  lemma RerenderWritesIff(b: Bridge, v: string)
    ensures var r := RerenderWith(b, v);
      var writes := v != b.prop && b.attached && !b.internalChange && v != b.markup && !(v == "" && b.markup == "<br>");
      && (r.markup != b.markup <==> writes)
      && r == b.(prop := v, markup := if writes then v else b.markup)
  {
  }

  /** Rendering with the same value twice is the same as rendering once. */
  lemma RerenderIdempotent(b: Bridge, v: string)
    ensures RerenderWith(RerenderWith(b, v), v) == RerenderWith(b, v)
  {
  }

  /** A run of renders and resets never calls onChange: the external path has no feedback. */
  lemma {:induction false} NoFeedback(b: Bridge, es: seq<Event>)
    requires forall k :: 0 <= k < |es| ==> es[k].Rerender? || es[k].Tick?
    ensures Run(b, es).published == b.published
    decreases |es|
  {
    if es != [] {
      NoFeedback(Step(b, es[0]), es[1..]);
    }
  }

  /**
   * A value that arrives while the flag is set is dropped, not deferred:
   * once the effect has seen it, any further resets and renders of that same
   * value leave the surface as it was.
   */
  lemma {:induction false} DroppedNotDeferred(b: Bridge, v: string, es: seq<Event>)
    requires b.internalChange && v != b.prop
    requires forall k :: 0 <= k < |es| ==> es[k] == Rerender(v) || es[k].Tick?
    ensures Run(RerenderWith(b, v), es).markup == b.markup
  {
    DroppedStays(RerenderWith(b, v), v, es);
  }

  lemma {:induction false} DroppedStays(b: Bridge, v: string, es: seq<Event>)
    requires b.prop == v
    requires forall k :: 0 <= k < |es| ==> es[k] == Rerender(v) || es[k].Tick?
    ensures Run(b, es).markup == b.markup
    decreases |es|
  {
    if es != [] {
      DroppedStays(Step(b, es[0]), v, es[1..]);
    }
  }

  /** The inputs of a sequence of input events, in order. */
  function Inputs(ms: seq<string>): seq<Event> {
    if ms == [] then [] else [Input(ms[0])] + Inputs(ms[1..])
  }

  /** N inputs on a mounted surface publish exactly the N markups, in order, and leave the last one on the surface. */
  lemma {:induction false} InputsPublishAll(b: Bridge, ms: seq<string>)
    requires b.attached
    ensures Run(b, Inputs(ms)).published == b.published + ms
    ensures Run(b, Inputs(ms)).pendingResets == b.pendingResets + |ms|
    ensures ms != [] ==> Run(b, Inputs(ms)).markup == ms[|ms| - 1] && Run(b, Inputs(ms)).internalChange
    decreases |ms|
  {
    if ms != [] {
      var es := Inputs(ms);
      var next := InputWith(b, ms[0]);
      assert es == [Input(ms[0])] + Inputs(ms[1..]);
      assert es[0] == Input(ms[0]) && es[1..] == Inputs(ms[1..]);
      InputsPublishAll(next, ms[1..]);
      assert next.published + ms[1..] == b.published + ms;
    }
  }

  /**
   * The parent echoing a published markup back never changes the surface,
   * whether the echo comes before or after a flag reset, and whether the
   * markup came from typing or from a toolbar command.
   */
  lemma EchoNeverOverwrites(b: Bridge, m: string, resetFirst: bool)
    requires b.attached
    ensures var r := InputWith(b, m);
      RerenderWith(if resetFirst then TickOnce(r) else r, m).markup == m
    ensures var c := CommandWith(b, m);
      RerenderWith(if resetFirst then TickOnce(c) else c, m).markup == m
  {
  }

  /**
   * A cancelled or empty prompt changes nothing and publishes nothing. A
   * non-empty URL on a mounted surface leaves the linked markup on it and
   * sets the flag, like any other command: it publishes that markup twice
   * (once from the input event of createLink, once from line 53) when the
   * link changed the surface, and once when it did not. Whatever happens,
   * nothing but that markup is published, at most twice.
   */
  lemma LinkGuard(b: Bridge, url: Option<string>, m: string)
    ensures url == None || url == Some("") ==> LinkWith(b, url, m) == b
    ensures var r := LinkWith(b, url, m);
      url.Some? && url.value != "" && b.attached ==>
        && r.markup == m && r.internalChange && r.prop == b.prop && r.attached
        && (m != b.markup ==> r.published == b.published + [m, m] && r.pendingResets == b.pendingResets + 2)
        && (m == b.markup ==> r.published == b.published + [m] && r.pendingResets == b.pendingResets + 1)
    ensures var r := LinkWith(b, url, m);
      r.published in [b.published, b.published + [m], b.published + [m, m]]
  {
  }

  /**
   * Because the flag is only set together with a scheduled reset, the next
   * deferred reset always clears it: the surface never stays deaf to the
   * parent.
   */
  lemma TickClearsFlag(b: Bridge)
    requires Valid(b) && b.internalChange
    ensures !TickOnce(b).internalChange && TickOnce(b).pendingResets == b.pendingResets - 1
    ensures Valid(TickOnce(b))
  {
  }

  // ---------------------------------------------------------------------------
  // The component, updating its fields in place.

  class SyncBridge {
    var attached: bool
    var markup: string
    var internalChange: bool
    var pendingResets: nat
    var prop: string
    var published: seq<string>

    function State(): Bridge
      reads this
    {
      Bridge(attached, markup, internalChange, pendingResets, prop, published)
    }

    constructor (initialHtml: string)
      ensures State() == Mount(initialHtml) && Valid(State())
    {
      attached := true;
      markup := "";
      internalChange := false;
      pendingResets := 0;
      prop := initialHtml;
      published := [];
      new;
      if attached && !internalChange && initialHtml != markup {
        if !(initialHtml == "" && markup == "<br>") {
          markup := initialHtml;
        }
      }
    }

    /** The sync effect, run after a render whose initialHtml differs from the last one. */
    method Rerender(value: string)
      requires Valid(State())
      modifies this
      ensures Valid(State())
      ensures State() == RerenderWith(old(State()), value)
    {
      if value == prop {
        return;
      }
      prop := value;
      if attached && !internalChange && value != markup {
        if value == "" && markup == "<br>" {
          return;
        }
        markup := value;
      }
    }

    method HandleInput()
      requires Valid(State())
      modifies this
      ensures Valid(State())
      ensures State() == Handled(old(State()))
    {
      if attached {
        internalChange := true;
        var html := markup;
        published := published + [html];
        pendingResets := pendingResets + 1;
      }
    }

    /** The user edited the surface, which now holds newMarkup; its input event runs handleInput. */
    method Input(newMarkup: string)
      requires Valid(State())
      modifies this
      ensures Valid(State())
      ensures State() == InputWith(old(State()), newMarkup)
    {
      if attached {
        markup := newMarkup;
        HandleInput();
      }
    }

    /**
     * execCommand (lines 48-54): the command leaves newMarkup on the surface
     * and, if that changed it, its input event runs handleInput; then
     * handleInput runs once more.
     */
    method Command(newMarkup: string)
      requires Valid(State())
      modifies this
      ensures Valid(State())
      ensures State() == CommandWith(old(State()), newMarkup)
    {
      if attached {
        var changed := newMarkup != markup;
        markup := newMarkup;
        if changed {
          HandleInput();
        }
        HandleInput();
      }
    }

    method Link(url: Option<string>, newMarkup: string)
      requires Valid(State())
      modifies this
      ensures Valid(State())
      ensures State() == LinkWith(old(State()), url, newMarkup)
    {
      if url.Some? && url.value != "" {
        Command(newMarkup);
      }
    }

    method Tick()
      requires Valid(State())
      modifies this
      ensures Valid(State())
      ensures State() == TickOnce(old(State()))
    {
      if pendingResets > 0 {
        internalChange := false;
        pendingResets := pendingResets - 1;
      }
    }

    method Unmount()
      requires Valid(State())
      modifies this
      ensures Valid(State())
      ensures State() == old(State()).(attached := false)
    {
      attached := false;
    }
  }
}
