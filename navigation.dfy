/**
 * `drawNavigationCanvas` (manual.js:107-192): the canvas overlay that draws
 * an image with its hotspots, tracks which hotspot the pointer hovers and
 * calls back when a hovered hotspot is clicked.
 *
 * The handlers' behaviour is given twice: as a pure transition function
 * (Step, and Run over a series of events) about which the hover properties
 * are proved, and as the class NavigationCanvas whose handler methods update
 * `hoveredRectKey` and the cursor in place and are proved to follow Step.
 * Drawing is recorded as a log of abstract operations and the click
 * callback as a log of its invocations.
 */
module Navigation {

  import opened Options
  import opened Geometry
  import opened Colors
  import opened Language
  import opened Hotspots

  /** The displayed (`width`, `height`) and intrinsic (`natural...`) size of the image. */
  datatype Image = Image(width: real, height: real, naturalWidth: real, naturalHeight: real)

  /**
   * What the handlers draw: `Redraw` is one call of `drawCanvasContent` (clear,
   * image, every hotspot's frame and label); `Highlight` is the translucent
   * fill of one hotspot's scaled rectangle.
   */
  datatype DrawOp = Redraw | Highlight(key: string, area: Rect)

  /** One invocation `clickRect(key, clipRects[key])` of the click callback. */
  datatype Call = Call(key: string, spot: Hotspot)

  /** What the handlers capture and never change: the hotspots and the two scale ratios. */
  datatype Setup = Setup(clip: ClipRects, hRatio: real, vRatio: real)

  /** What the handlers change: `hoveredRectKey` (None for `undefined`) and `canvas.style.cursor`. */
  datatype Hover = Hover(hovered: Option<string>, cursor: string)

  /** The events the overlay listens to; `mouseenter` runs the `mousemove` handler. */
  datatype Event = MouseMove(p: Point) | MouseLeave | MouseClick

  /** The new state, what was drawn and which callbacks were made. */
  datatype Transition = Transition(next: Hover, ops: seq<DrawOp>, calls: seq<Call>)

  const POINTER_CURSOR: string := "pointer"
  const DEFAULT_CURSOR: string := "default"

  /** The hotspots form one object and the hovered key, if any, is one of them. */
  predicate ValidHover(s: Setup, h: Hover) {
    WellFormed(s.clip) && (h.hovered.Some? ==> h.hovered.value in s.clip.keys)
  }

  /** `if (hoveredRectKey)`: a key is hovered and, being a string, is truthy only when non-empty. */
  predicate Clickable(h: Hover) {
    h.hovered.Some? && h.hovered.value != ""
  }

  /** The cursor shows whether a hotspot is hovered. */
  predicate CursorAgrees(h: Hover) {
    h.cursor == if h.hovered.Some? then POINTER_CURSOR else DEFAULT_CURSOR
  }

  /** The highlight of the hotspot under `key`, at its scaled position. */
  function HighlightOf(s: Setup, key: string): DrawOp
    requires key in s.clip.spots
  {
    Highlight(key, Scale(s.clip.spots[key].rect, s.hRatio, s.vRatio))
  }

  /** One handler run: `handleMouseInCanvas`, the `mouseleave` handler or the `click` handler. */
  function Step(s: Setup, h: Hover, e: Event): (t: Transition)
    requires ValidHover(s, h)
    ensures ValidHover(s, t.next)
  {
    match e
    case MouseMove(p) =>
      var hit := HitTest(s.clip, p, s.hRatio, s.vRatio);
      if hit == h.hovered then Transition(h, [], [])
      else if hit.None? then Transition(Hover(None, DEFAULT_CURSOR), [Redraw], [])
      else Transition(Hover(hit, POINTER_CURSOR), [Redraw, HighlightOf(s, hit.value)], [])
    case MouseLeave =>
      Transition(Hover(None, DEFAULT_CURSOR), [Redraw], [])
    case MouseClick =>
      if Clickable(h) then Transition(h, [], [Call(h.hovered.value, s.clip.spots[h.hovered.value])])
      else Transition(h, [], [])
  }

  /** The handlers run one after another on `events`, oldest first. */
  function Run(s: Setup, h: Hover, events: seq<Event>): (t: Transition)
    requires ValidHover(s, h)
    ensures ValidHover(s, t.next)
    decreases |events|
  {
    if events == [] then Transition(h, [], [])
    else
      var before := Run(s, h, events[..|events| - 1]);
      var last := Step(s, before.next, events[|events| - 1]);
      Transition(last.next, before.ops + last.ops, before.calls + last.calls)
  }

  /** The number of full redraws among `ops`. */
  function Redraws(ops: seq<DrawOp>): nat {
    if ops == [] then 0 else (if ops[0] == Redraw then 1 else 0) + Redraws(ops[1..])
  }

  lemma {:induction false} RedrawsAppend(a: seq<DrawOp>, b: seq<DrawOp>)
    ensures Redraws(a + b) == Redraws(a) + Redraws(b)
  {
    if a != [] {
      assert (a + b)[1..] == a[1..] + b;
      RedrawsAppend(a[1..], b);
    } else {
      assert a + b == b;
    }
  }

  /** Every handler run redraws at most once. */
  lemma StepRedrawsAtMostOnce(s: Setup, h: Hover, e: Event)
    requires ValidHover(s, h)
    ensures Redraws(Step(s, h, e).ops) <= 1
  {
    var ops := Step(s, h, e).ops;
    if |ops| == 1 {
      assert ops[1..] == [];
    } else if |ops| == 2 {
      assert ops[1].Highlight? && ops[1..][1..] == [];
      assert Redraws(ops[1..]) == 0;
    }
  }

  /**
   * Reference definition of the hovered key after `events`: the hit test of
   * the last pointer move, none after a leave, and `initial` when there was
   * no move or leave (clicks do not count).
   */
  function LastPointerHover(s: Setup, initial: Option<string>, events: seq<Event>): Option<string>
    requires WellFormed(s.clip)
  {
    if events == [] then initial
    else match events[|events| - 1]
      case MouseMove(p) => HitTest(s.clip, p, s.hRatio, s.vRatio)
      case MouseLeave => None
      case MouseClick => LastPointerHover(s, initial, events[..|events| - 1])
  }

  /** A move or enter whose hit test gives the hovered key changes nothing and draws nothing. */
  lemma MoveOnSameTargetIsSilent(s: Setup, h: Hover, p: Point)
    requires ValidHover(s, h)
    requires HitTest(s.clip, p, s.hRatio, s.vRatio) == h.hovered
    ensures Step(s, h, MouseMove(p)) == Transition(h, [], [])
  {
  }

  /**
   * A move or enter that changes the hit-test result hovers the new result,
   * sets the cursor to match, redraws once and then highlights the new
   * hotspot, if there is one.
   */
  lemma MoveOnNewTarget(s: Setup, h: Hover, p: Point)
    requires ValidHover(s, h)
    requires HitTest(s.clip, p, s.hRatio, s.vRatio) != h.hovered
    ensures var hit := HitTest(s.clip, p, s.hRatio, s.vRatio);
      var t := Step(s, h, MouseMove(p));
      && t.next.hovered == hit
      && CursorAgrees(t.next)
      && t.ops == [Redraw] + (if hit.Some? then [HighlightOf(s, hit.value)] else [])
      && Redraws(t.ops) == 1
      && t.calls == []
  {
    var ops := Step(s, h, MouseMove(p)).ops;
    if |ops| == 1 {
      assert ops[1..] == [];
    } else {
      assert ops[1].Highlight? && ops[1..][1..] == [];
      assert Redraws(ops[1..]) == 0;
    }
  }

  /** Leave always clears the hover, resets the cursor and redraws once, whatever the state. */
  lemma LeaveResets(s: Setup, h: Hover)
    requires ValidHover(s, h)
    ensures Step(s, h, MouseLeave) == Transition(Hover(None, DEFAULT_CURSOR), [Redraw], [])
  {
  }

  /**
   * Click never changes the hover state or draws; it calls back with the
   * hovered key and its hotspot exactly when that key is truthy.
   */
  lemma ClickCallsBackOnlyWhenHovered(s: Setup, h: Hover)
    requires ValidHover(s, h)
    ensures var t := Step(s, h, MouseClick);
      && t.next == h && t.ops == []
      && (Clickable(h) <==> t.calls != [])
      && (Clickable(h) ==> t.calls == [Call(h.hovered.value, s.clip.spots[h.hovered.value])])
  {
  }

  /** A hotspot keyed "" can be hovered but never clicked. */
  lemma EmptyKeyNeverClickable(s: Setup, h: Hover, events: seq<Event>)
    requires ValidHover(s, h)
    ensures forall c | c in Run(s, h, events).calls :: c.key != ""
  {
    CallsAreHoveredHotspots(s, h, events);
  }

  /** Every callback carries a truthy key of the overlay and that key's own hotspot. */
  lemma {:induction false} CallsAreHoveredHotspots(s: Setup, h: Hover, events: seq<Event>)
    requires ValidHover(s, h)
    ensures forall c | c in Run(s, h, events).calls ::
      c.key != "" && c.key in s.clip.spots && c.spot == s.clip.spots[c.key]
  {
    if events != [] {
      CallsAreHoveredHotspots(s, h, events[..|events| - 1]);
    }
  }

  /** The hover state always agrees with the most recent pointer event (hover is consistent). */
  lemma {:induction false} HoverFollowsLastPointerEvent(s: Setup, h: Hover, events: seq<Event>)
    requires ValidHover(s, h)
    ensures Run(s, h, events).next.hovered == LastPointerHover(s, h.hovered, events)
  {
    if events != [] {
      HoverFollowsLastPointerEvent(s, h, events[..|events| - 1]);
    }
  }

  /**
   * Once the cursor agrees with the hover state it keeps agreeing; a leave,
   * anywhere in the series, makes it agree from then on.
   */
  lemma {:induction false} CursorFollowsHover(s: Setup, h: Hover, events: seq<Event>)
    requires ValidHover(s, h)
    requires CursorAgrees(h) || MouseLeave in events
    ensures CursorAgrees(Run(s, h, events).next)
  {
    if events != [] {
      var prefix := events[..|events| - 1];
      if events[|events| - 1] != MouseLeave {
        assert events == prefix + [events[|events| - 1]];
        assert CursorAgrees(h) || MouseLeave in prefix;
        CursorFollowsHover(s, h, prefix);
      }
    }
  }

  /**
   * Moving the pointer any number of times within the same target (the same
   * hotspot, or no hotspot) redraws at most once, at the first move.
   */
  lemma {:induction false} SameTargetMovesRedrawAtMostOnce(s: Setup, h: Hover, events: seq<Event>, target: Option<string>)
    requires ValidHover(s, h)
    requires forall i | 0 <= i < |events| ::
      events[i].MouseMove? && HitTest(s.clip, events[i].p, s.hRatio, s.vRatio) == target
    ensures Redraws(Run(s, h, events).ops) <= 1
    ensures events != [] ==> Run(s, h, events).next.hovered == target
    ensures h.hovered == target ==> Run(s, h, events).ops == []
  {
    if events != [] {
      var init := events[..|events| - 1];
      SameTargetMovesRedrawAtMostOnce(s, h, init, target);
      var before := Run(s, h, init);
      var last := Step(s, before.next, events[|events| - 1]);
      RedrawsAppend(before.ops, last.ops);
      if init != [] {
        assert last.ops == [];
      } else {
        StepRedrawsAtMostOnce(s, before.next, events[|events| - 1]);
      }
    }
  }

  /** Clicks and leaves alone, starting with nothing clickable, never call back. */
  lemma {:induction false} NoCallbackWithoutHover(s: Setup, h: Hover, events: seq<Event>)
    requires ValidHover(s, h) && !Clickable(h)
    requires forall i | 0 <= i < |events| :: !events[i].MouseMove?
    ensures Run(s, h, events).calls == []
    ensures !Clickable(Run(s, h, events).next)
  {
    if events != [] {
      NoCallbackWithoutHover(s, h, events[..|events| - 1]);
    }
  }

  /** After hovering anything, a leave followed by a click makes no callback. */
  lemma LeaveThenClickIsSilent(s: Setup, h: Hover)
    requires ValidHover(s, h)
    ensures Run(s, h, [MouseLeave, MouseClick]).calls == []
    ensures Run(s, h, [MouseLeave, MouseClick]).next == Hover(None, DEFAULT_CURSOR)
  {
    assert [MouseLeave, MouseClick][..1] == [MouseLeave];
    assert [MouseLeave] == [MouseLeave][..0] + [MouseLeave];
  }

  /**
   * The overlay created by `drawNavigationCanvas`. `listening` marks the
   * case of at least one hotspot: only then is the initial draw made and are
   * the four handlers registered; without them, events change nothing.
   */
  class NavigationCanvas {
    const setup: Setup
    const listening: bool
    const rectColorString: string
    const nameColorString: string
    /** The language of the labels; None when the function returned before choosing it. */
    const labelLanguage: Option<string>

    var canvasWidth: real
    var canvasHeight: real
    var hovered: Option<string>
    var cursor: string
    var log: seq<DrawOp>
    var calls: seq<Call>

    ghost predicate Valid()
      reads this
    {
      && ValidHover(setup, State())
      && (listening <==> setup.clip.keys != [])
      && (!listening ==> log == [] && calls == [])
    }

    function State(): Hover
      reads this
    {
      Hover(hovered, cursor)
    }

    /**
     * `drawNavigationCanvas(img, canvas, clipRects, clickRect, rectColor, nameColor)`
     * with the browser's language and the canvas's cursor before the call as
     * inputs.
     */
    constructor (img: Image, clipRects: ClipRects, rectColor: Option<Color>, nameColor: Option<Color>,
                 browserLanguage: string, initialCursor: string)
      requires 0.0 < img.naturalWidth && 0.0 < img.naturalHeight
      requires WellFormed(clipRects)
      ensures Valid()
      ensures setup == Setup(clipRects, img.width / img.naturalWidth, img.height / img.naturalHeight)
      ensures rectColorString == ColorPrefix(rectColor, DEFAULT_RECT_COLOR)
      ensures nameColorString == ColorPrefix(nameColor, DEFAULT_NAME_COLOR)
      ensures canvasWidth == img.width && canvasHeight == img.height
      ensures listening <==> clipRects.keys != []
      ensures labelLanguage == if clipRects.keys == [] then None
        else Some(SelectLanguage(browserLanguage, NameKeys(clipRects.spots[clipRects.keys[0]])))
      ensures State() == Hover(None, initialCursor) && calls == []
      ensures log == if clipRects.keys == [] then [] else [Redraw]
    {
      setup := Setup(clipRects, img.width / img.naturalWidth, img.height / img.naturalHeight);
      rectColorString := ColorPrefix(rectColor, DEFAULT_RECT_COLOR);
      nameColorString := ColorPrefix(nameColor, DEFAULT_NAME_COLOR);
      canvasWidth := img.width;
      canvasHeight := img.height;
      listening := clipRects.keys != [];
      labelLanguage := if clipRects.keys == [] then None
        else Some(SelectLanguage(browserLanguage, NameKeys(clipRects.spots[clipRects.keys[0]])));
      hovered := None;
      cursor := initialCursor;
      log := [];
      calls := [];
      new;
      if listening {
        DrawCanvasContent();
      }
    }

    /** `drawCanvasContent`. */
    method DrawCanvasContent()
      requires Valid() && listening
      modifies this`log
      ensures Valid()
      ensures log == old(log) + [Redraw]
    {
      log := log + [Redraw];
    }

    /** `handleMouseInCanvas`, run on `mousemove` and `mouseenter` at canvas position `p`. */
    method HandleMouseInCanvas(p: Point)
      requires Valid()
      modifies this`hovered, this`cursor, this`log
      ensures Valid()
      ensures listening ==> var t := Step(setup, old(State()), MouseMove(p));
        State() == t.next && log == old(log) + t.ops && t.calls == []
      ensures !listening ==> State() == old(State()) && log == old(log)
    {
      if !listening {
        return;
      }
      var detected := Detected(setup.clip, setup.clip.keys, p, setup.hRatio, setup.vRatio);
      if |detected| == 0 {
        if hovered == None {
          return;
        }
        hovered := None;
        cursor := DEFAULT_CURSOR;
        DrawCanvasContent();
      } else {
        if hovered == Some(detected[0]) {
          return;
        }
        hovered := Some(detected[0]);
        cursor := POINTER_CURSOR;
        DrawCanvasContent();
        var clipRect := setup.clip.spots[detected[0]];
        log := log + [Highlight(detected[0], Scale(clipRect.rect, setup.hRatio, setup.vRatio))];
      }
    }

    /** The `mouseleave` handler. */
    method HandleMouseLeave()
      requires Valid()
      modifies this`hovered, this`cursor, this`log
      ensures Valid()
      ensures listening ==> var t := Step(setup, old(State()), MouseLeave);
        State() == t.next && log == old(log) + t.ops
      ensures !listening ==> State() == old(State()) && log == old(log)
    {
      if !listening {
        return;
      }
      hovered := None;
      cursor := DEFAULT_CURSOR;
      DrawCanvasContent();
    }

    /** The `click` handler. */
    method HandleClick()
      requires Valid()
      modifies this`calls
      ensures Valid()
      ensures listening ==> calls == old(calls) + Step(setup, State(), MouseClick).calls
      ensures !listening ==> calls == old(calls)
    {
      if !listening {
        return;
      }
      if hovered.Some? && hovered.value != "" {
        calls := calls + [Call(hovered.value, setup.clip.spots[hovered.value])];
      }
    }
  }

}
