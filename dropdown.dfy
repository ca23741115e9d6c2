/** The searchable dropdown that `setupDropdown` attaches to one input: the
    rows `populateDropdown` renders, `highlightedIndex`, whether the list is
    shown, and the input's text, with one transition per handled event.
    The pure functions below are the specification; class `Dropdown` is the
    widget itself, whose methods update its fields as the handlers do. */
module SearchDropdown {
  import opened Wrappers
  import opened Registry

  /** The two search inputs of the page, by element id. */
  datatype Field = FromCurrencySearch | ToCurrencySearch

  /** The value of `e.key` as the keydown handler tells it apart. */
  datatype Key = ArrowDown | ArrowUp | Enter | Tab | OtherKey

  /** Where a click on the page lands, relative to the widgets. */
  datatype Target = InputOf(input: Field) | ListOf(list: Field) | Elsewhere

  /** One widget: the input it is attached to, the field Tab moves to
      (`nextInputId`), the records of the rendered rows in row order, the
      highlighted row (-1 for none), whether the list is shown, and the
      input's text. */
  datatype Widget = Widget(
    field: Field,
    next: Option<Field>,
    items: seq<Currency>,
    highlighted: int,
    open: bool,
    value: string)

  /** The highlight is a rendered row or -1. */
  predicate Valid(w: Widget) {
    -1 <= w.highlighted < |w.items|
  }

  /** Every rendered row comes from the registry. */
  predicate RowsFrom(w: Widget, registry: seq<Currency>) {
    forall i :: 0 <= i < |w.items| ==> w.items[i] in registry
  }

  /** The widget right after `setupDropdown`: list hidden, no rows, no highlight. */
  function Attached(field: Field, next: Option<Field>, value: string): (w: Widget)
    ensures Valid(w) && !w.open && w.items == [] && w.highlighted == -1
    ensures w.field == field && w.next == next && w.value == value
  {
    Widget(field, next, [], -1, false, value)
  }

  /** The focus handler: every registry record is rendered, the list is shown
      and the highlight is reset. */
  function OnFocus(w: Widget, registry: seq<Currency>): (r: Widget)
    ensures Valid(r) && RowsFrom(r, registry)
    ensures r.items == registry && r.open && r.highlighted == -1
    ensures r.field == w.field && r.next == w.next && r.value == w.value
  {
    w.(items := registry, highlighted := -1, open := true)
  }

  /** The input handler, after the input's text has become `text`: the filtered
      records are rendered, the list is shown exactly when there is at least
      one of them, and the highlight is reset. */
  function OnInput(w: Widget, registry: seq<Currency>, text: string): (r: Widget)
    ensures Valid(r) && RowsFrom(r, registry)
    ensures r.items == Filter(registry, text) && r.highlighted == -1
    ensures r.open <==> exists i :: 0 <= i < |registry| && Matches(registry[i], text)
    ensures r.field == w.field && r.next == w.next && r.value == text
  {
    var filtered := Filter(registry, text);
    FilterNonEmpty(registry, text);
    w.(value := text, items := filtered, highlighted := -1, open := |filtered| > 0)
  }

  /** The filtered list is empty exactly when no record matches. */
  lemma FilterNonEmpty(registry: seq<Currency>, text: string)
    ensures |Filter(registry, text)| > 0 <==> exists i :: 0 <= i < |registry| && Matches(registry[i], text)
  {
    var idx := FilterSelects(registry, text);
    if i :| 0 <= i < |registry| && Matches(registry[i], text) {
      assert i in idx;
    }
  }

  /** The `onclick` of row `i`: the input takes the row's code and the list hides. */
  function OnItemClick(w: Widget, i: nat): (r: Widget)
    requires i < |w.items|
    ensures r.value == w.items[i].code && !r.open
    ensures r.(value := w.value, open := w.open) == w
  {
    w.(value := w.items[i].code, open := false)
  }

  /** What a keydown leaves behind: the widget, the field that the handler
      focuses (if any), and whether it suppressed the browser's default. */
  datatype KeyReaction = KeyReaction(widget: Widget, focus: Option<Field>, prevented: bool)

  /** ArrowDown moves one row down unless the last row is highlighted. */
  function Down(w: Widget): int {
    if w.highlighted < |w.items| - 1 then w.highlighted + 1 else w.highlighted
  }

  /** ArrowUp moves one row up unless nothing or the first row is highlighted. */
  function Up(w: Widget): int {
    if w.highlighted > 0 then w.highlighted - 1 else w.highlighted
  }

  /** The keydown handler. */
  function OnKeyDown(w: Widget, key: Key, shift: bool): (r: KeyReaction)
    ensures Valid(w) ==> Valid(r.widget)
    ensures r.widget.field == w.field && r.widget.next == w.next && r.widget.items == w.items
    ensures key != Tab ==> r.focus == None
    ensures r.prevented <==> key != OtherKey && (key == Tab ==> r.focus.Some?)
  {
    match key
    case ArrowDown => KeyReaction(w.(highlighted := Down(w)), None, true)
    case ArrowUp => KeyReaction(w.(highlighted := Up(w)), None, true)
    case Enter =>
      var h := w.highlighted;
      KeyReaction(if 0 <= h < |w.items| then OnItemClick(w, h) else w, None, true)
    case Tab =>
      if !shift && w.next.Some? then KeyReaction(w, w.next, true)
      else if shift && w.next.None? then KeyReaction(w, Some(FromCurrencySearch), true)
      else KeyReaction(w, None, false)
    case OtherKey => KeyReaction(w, None, false)
  }

  /** The document's click handler of this widget: a click outside its input
      and its list hides the list. */
  function OnDocumentClick(w: Widget, target: Target): (r: Widget)
    ensures r.open <==> w.open && (target == InputOf(w.field) || target == ListOf(w.field))
    ensures r.(open := w.open) == w
  {
    if target != InputOf(w.field) && target != ListOf(w.field) then w.(open := false) else w
  }

  /** The events a widget handles. `Click(i)` is a click on rendered row `i`. */
  datatype Event =
    | FocusIn
    | Typed(text: string)
    | KeyPress(key: Key, shift: bool)
    | Click(row: nat)
    | DocumentClick(target: Target)

  /** One event. A click on a row that is not rendered is no event. */
  function Step(w: Widget, registry: seq<Currency>, e: Event): (r: Widget)
    ensures Valid(w) ==> Valid(r)
    ensures RowsFrom(w, registry) ==> RowsFrom(r, registry)
    ensures r.field == w.field && r.next == w.next
  {
    match e
    case FocusIn => OnFocus(w, registry)
    case Typed(text) => OnInput(w, registry, text)
    case KeyPress(key, shift) => OnKeyDown(w, key, shift).widget
    case Click(i) => if i < |w.items| then OnItemClick(w, i) else w
    case DocumentClick(target) => OnDocumentClick(w, target)
  }

  /** A sequence of events, in order. */
  function Run(w: Widget, registry: seq<Currency>, events: seq<Event>): Widget
    decreases |events|
  {
    if events == [] then w else Run(Step(w, registry, events[0]), registry, events[1..])
  }

  /** The highlight stays within [-1, rows - 1] under any sequence of events,
      starting from the freshly attached widget or any valid state. */
  lemma {:induction false} RunKeepsValid(w: Widget, registry: seq<Currency>, events: seq<Event>)
    requires Valid(w)
    ensures Valid(Run(w, registry, events))
    decreases |events|
  {
    if events != [] {
      RunKeepsValid(Step(w, registry, events[0]), registry, events[1..]);
    }
  }

  /** Under any sequence of events every rendered row is a registry record. */
  lemma {:induction false} RunKeepsRowsFrom(w: Widget, registry: seq<Currency>, events: seq<Event>)
    requires RowsFrom(w, registry)
    ensures RowsFrom(Run(w, registry, events), registry)
    decreases |events|
  {
    if events != [] {
      RunKeepsRowsFrom(Step(w, registry, events[0]), registry, events[1..]);
    }
  }

  /** `e` commits a selection: a click on a rendered row, or Enter while a
      rendered row is highlighted. */
  predicate Commits(w: Widget, e: Event) {
    || (e.Click? && e.row < |w.items|)
    || (e.KeyPress? && e.key == Enter && 0 <= w.highlighted < |w.items|)
  }

  /** A selection commits a registry code: after any events from the attached
      widget, a row click or an Enter on a highlighted row sets the text to
      the code of a registry record, and hides the list. */
  lemma CommitIsRegistryCode(field: Field, next: Option<Field>, value: string,
                             registry: seq<Currency>, events: seq<Event>, e: Event)
    requires Commits(Run(Attached(field, next, value), registry, events), e)
    ensures var w := Step(Run(Attached(field, next, value), registry, events), registry, e);
            !w.open && exists c :: c in registry && w.value == c.code
  {
    var w0 := Attached(field, next, value);
    RunKeepsRowsFrom(w0, registry, events);
    var w := Run(w0, registry, events);
    if e.Click? && e.row < |w.items| {
      assert w.items[e.row] in registry;
    } else {
      assert w.items[w.highlighted] in registry;
    }
  }

  /** `n` presses of one key, ignoring Shift. */
  function Presses(w: Widget, key: Key, n: nat): Widget
    decreases n
  {
    if n == 0 then w else Presses(OnKeyDown(w, key, false).widget, key, n - 1)
  }

  /** Repeated ArrowDown walks down one row per press and then stays on the
      last row: there is no wraparound. Nothing but the highlight changes. */
  lemma {:induction false} ArrowDownClamps(w: Widget, n: nat)
    requires Valid(w)
    ensures var r := Presses(w, ArrowDown, n);
            r.highlighted == (if w.highlighted + n < |w.items| then w.highlighted + n else |w.items| - 1)
            && r.(highlighted := w.highlighted) == w
    decreases n
  {
    if n > 0 {
      ArrowDownClamps(OnKeyDown(w, ArrowDown, false).widget, n - 1);
    }
  }

  /** Repeated ArrowUp walks up one row per press and stops at the first row;
      with nothing highlighted it stays at -1. Nothing but the highlight changes. */
  lemma {:induction false} ArrowUpClamps(w: Widget, n: nat)
    requires Valid(w)
    ensures var r := Presses(w, ArrowUp, n);
            r.highlighted == (if w.highlighted == -1 then -1
                              else if w.highlighted - n > 0 then w.highlighted - n else 0)
            && r.(highlighted := w.highlighted) == w
    decreases n
  {
    if n > 0 {
      ArrowUpClamps(OnKeyDown(w, ArrowUp, false).widget, n - 1);
    }
  }

  /** Enter commits exactly a highlighted rendered row, with the effect of
      clicking it; otherwise it changes nothing. */
  lemma EnterCommitsHighlight(w: Widget, shift: bool)
    ensures var r := OnKeyDown(w, Enter, shift);
            var h := w.highlighted;
            && r.prevented && r.focus == None
            && (0 <= h < |w.items| ==> r.widget == OnItemClick(w, h)
                                       && r.widget.value == w.items[h].code && !r.widget.open)
            && (!(0 <= h < |w.items|) ==> r.widget == w)
  {
  }

  /** Tab moves focus only to a configured next field, and Shift+Tab jumps to
      the first field only on the widget without one; the widget itself does
      not change. */
  lemma TabMovesFocusOnly(w: Widget, shift: bool)
    ensures var r := OnKeyDown(w, Tab, shift);
            && r.widget == w
            && (r.focus.Some? <==> (!shift && w.next.Some?) || (shift && w.next.None?))
            && (!shift && w.next.Some? ==> r.focus == w.next)
            && (shift && w.next.None? ==> r.focus == Some(FromCurrencySearch))
  {
  }

  /** Right after focus, the first ArrowDown highlights the first row when the
      registry has one. */
  lemma FocusThenArrowDown(w: Widget, registry: seq<Currency>)
    ensures OnKeyDown(OnFocus(w, registry), ArrowDown, false).widget.highlighted
            == if |registry| > 0 then 0 else -1
  {
  }

  /** A widget attached to an input and its `list` container. */
  class Dropdown {
    const field: Field
    const next: Option<Field>
    var items: seq<Currency>
    var highlighted: int
    var open: bool
    var value: string

    /** The widget's state as a value. */
    function State(): Widget
      reads this
    {
      Widget(field, next, items, highlighted, open, value)
    }

    /** `setupDropdown(field, list, next)` on an input whose text is `value`. */
    constructor (field: Field, next: Option<Field>, value: string)
      ensures State() == Attached(field, next, value)
    {
      this.field := field;
      this.next := next;
      items := [];
      highlighted := -1;
      open := false;
      this.value := value;
    }

    /** `populateDropdown`: the list is emptied and one row is appended per record. */
    method Populate(data: seq<Currency>)
      modifies this
      ensures items == data
      ensures highlighted == old(highlighted) && open == old(open) && value == old(value)
    {
      items := [];
      var k := 0;
      while k < |data|
        invariant 0 <= k <= |data|
        invariant items == data[..k]
        invariant highlighted == old(highlighted) && open == old(open) && value == old(value)
      {
        items := items + [data[k]];
        k := k + 1;
      }
    }

    method Focus(registry: seq<Currency>)
      modifies this
      ensures State() == OnFocus(old(State()), registry)
    {
      Populate(registry);
      open := true;
      highlighted := -1;
    }

    /** The input event, after the user's edit has left `text` in the input. */
    method Input(registry: seq<Currency>, text: string)
      modifies this
      ensures State() == OnInput(old(State()), registry, text)
    {
      value := text;
      var filtered := Filter(registry, text);
      Populate(filtered);
      open := |filtered| > 0;
      highlighted := -1;
    }

    /** The click on rendered row `i`. */
    method ItemClick(i: nat)
      requires i < |items|
      modifies this
      ensures State() == OnItemClick(old(State()), i)
    {
      value := items[i].code;
      open := false;
    }

    method KeyDown(key: Key, shift: bool) returns (focus: Option<Field>, prevented: bool)
      modifies this
      ensures var r := OnKeyDown(old(State()), key, shift);
              State() == r.widget && focus == r.focus && prevented == r.prevented
    {
      focus, prevented := None, false;
      if key == ArrowDown {
        prevented := true;
        if highlighted < |items| - 1 {
          highlighted := highlighted + 1;
        }
      } else if key == ArrowUp {
        prevented := true;
        if highlighted > 0 {
          highlighted := highlighted - 1;
        }
      } else if key == Enter {
        prevented := true;
        if highlighted >= 0 && highlighted < |items| {
          ItemClick(highlighted);
        }
      } else if key == Tab && !shift && next.Some? {
        prevented := true;
        focus := next;
      } else if key == Tab && shift && next.None? {
        prevented := true;
        focus := Some(FromCurrencySearch);
      }
    }

    method DocumentClick(target: Target)
      modifies this
      ensures State() == OnDocumentClick(old(State()), target)
    {
      if target != InputOf(field) && target != ListOf(field) {
        open := false;
      }
    }
  }
}
