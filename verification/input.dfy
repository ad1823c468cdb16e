/** The adapter's input handlers: each engine event is either dropped or
    forwarded to the toolkit's root widget, with its key and qualifiers
    translated through the key table and the pointer at the position the last
    mouse-move reported. */
module Input {
  import opened Common
  import KeyMap
  import Utf8

  datatype Point = Point(x: int, y: int)

  /** The engine events the adapter subscribes to, with the payload fields it reads
      (`MouseButtonUp` also carries the button, which the handler ignores). */
  datatype HostEvent =
    | MouseButtonDown(buttons: Int32, qualifiers: Int32)
    | MouseButtonUp(button: Int32, qualifiers: Int32)
    | MouseMove(x: Int32, y: Int32, qualifiers: Int32)
    | MouseWheel(wheel: Int32, qualifiers: Int32)
    | KeyDown(key: Int32, qualifiers: Int32)
    | KeyUp(key: Int32, qualifiers: Int32)
    | TextInput(text: seq<Utf8.Byte>)

  /** The calls made on the toolkit's root widget. */
  datatype TbEvent =
    | PointerDown(x: int, y: int, clickCount: int, modifiers: int, touch: bool)
    | PointerUp(x: int, y: int, modifiers: int, touch: bool)
    | PointerMove(x: int, y: int, modifiers: int, touch: bool)
    | Wheel(x: int, y: int, deltaX: int, deltaY: int, modifiers: int)
    | Key(key: int, special: int, modifiers: int, down: bool)

  /** What the handlers read and write: the key table and the remembered
      pointer position. */
  datatype InputState = InputState(keyMap: map<int, int>, lastMousePos: Point)

  /** The state after one event, and the toolkit call made, if any. */
  datatype Step = Step(state: InputState, forwarded: Option<TbEvent>)

  /** The toolkit modifier for an engine qualifier mask. */
  function Modifiers(s: InputState, qualifiers: Int32): int {
    KeyMap.FindTBKey(s.keyMap, KeyMap.QualifierKey(qualifiers))
  }

  /** A button press is forwarded only when the held buttons are exactly the
      left button; it is a single click at the remembered position. */
  function HandleMouseButtonDown(s: InputState, leftButton: Int32, buttons: Int32, qualifiers: Int32): (r: Step)
    ensures r.state == s
    ensures r.forwarded.Some? <==> buttons == leftButton
    ensures r.forwarded.Some? ==>
      r.forwarded.value == PointerDown(s.lastMousePos.x, s.lastMousePos.y, 1, Modifiers(s, qualifiers), false)
  {
    var modKey := Modifiers(s, qualifiers);
    if buttons != leftButton then Step(s, None)
    else Step(s, Some(PointerDown(s.lastMousePos.x, s.lastMousePos.y, 1, modKey, false)))
  }

  /** Every button release is forwarded, whichever button it was. */
  function HandleMouseButtonUp(s: InputState, button: Int32, qualifiers: Int32): (r: Step)
    ensures r.state == s
    ensures r.forwarded == Some(PointerUp(s.lastMousePos.x, s.lastMousePos.y, Modifiers(s, qualifiers), false))
  {
    Step(s, Some(PointerUp(s.lastMousePos.x, s.lastMousePos.y, Modifiers(s, qualifiers), false)))
  }

  /** A move is remembered and forwarded at its new position. */
  function HandleMouseMove(s: InputState, x: Int32, y: Int32, qualifiers: Int32): (r: Step)
    ensures r.state.lastMousePos == Point(x, y) && r.state.keyMap == s.keyMap
    ensures r.forwarded == Some(PointerMove(x, y, Modifiers(s, qualifiers), false))
  {
    var modKey := Modifiers(s, qualifiers);
    var s' := s.(lastMousePos := Point(x, y));
    Step(s', Some(PointerMove(x, y, modKey, false)))
  }

  /** The wheel is forwarded as a vertical delta of opposite sign (negated in
      32-bit arithmetic) at the remembered position. */
  function HandleMouseWheel(s: InputState, wheel: Int32, qualifiers: Int32): (r: Step)
    ensures r.state == s && r.forwarded.Some? && r.forwarded.value.Wheel?
    ensures var w := r.forwarded.value;
      && w.x == s.lastMousePos.x && w.y == s.lastMousePos.y
      && w.deltaX == 0
      && (wheel != -0x8000_0000 ==> w.deltaY == -wheel)
      && w.modifiers == Modifiers(s, qualifiers)
  {
    var modKey := Modifiers(s, qualifiers);
    Step(s, Some(Wheel(s.lastMousePos.x, s.lastMousePos.y, 0, Wrap32(-(wheel as int)), modKey)))
  }

  /** A key press is forwarded only for keys the table translates to a
      special key; ordinary characters arrive through text input instead. */
  function HandleKeyDown(s: InputState, key: Int32, qualifiers: Int32): (r: Step)
    ensures r.state == s
    ensures r.forwarded.Some? <==> KeyMap.FindTBKey(s.keyMap, key) != KeyMap.TB_KEY_UNDEFINED
    ensures r.forwarded.Some? ==>
      r.forwarded.value == Key(key, KeyMap.FindTBKey(s.keyMap, key), Modifiers(s, qualifiers), true)
  {
    var modKey := Modifiers(s, qualifiers);
    var spKey := KeyMap.FindTBKey(s.keyMap, key);
    if spKey == KeyMap.TB_KEY_UNDEFINED then Step(s, None)
    else Step(s, Some(Key(key, spKey, modKey, true)))
  }

  /** Every key release is forwarded, with its special key or "undefined". */
  function HandleKeyUp(s: InputState, key: Int32, qualifiers: Int32): (r: Step)
    ensures r.state == s
    ensures r.forwarded == Some(Key(key, KeyMap.FindTBKey(s.keyMap, key), Modifiers(s, qualifiers), false))
  {
    var modKey := Modifiers(s, qualifiers);
    var spKey := KeyMap.FindTBKey(s.keyMap, key);
    Step(s, Some(Key(key, spKey, modKey, false)))
  }

  /** Text is forwarded as a key press of its first byte read through a
      signed `char`, with no special key and the modifiers of an empty
      qualifier mask. */
  function HandleTextInput(s: InputState, text: seq<Utf8.Byte>): (r: Step)
    ensures r.state == s
    ensures r.forwarded.Some? && r.forwarded.value.Key?
    ensures var k := r.forwarded.value;
      && k.special == KeyMap.TB_KEY_UNDEFINED && k.down
      && k.modifiers == Modifiers(s, 0)
      && k.key == Utf8.FirstByteKey(text)
  {
    var modKey := Modifiers(s, 0);
    Step(s, Some(Key(Utf8.FirstByteKey(text), KeyMap.TB_KEY_UNDEFINED, modKey, true)))
  }

  /** The handler as evidently intended: the key is the code point of the
      first typed character. */
  function HandleTextInputCorrected(s: InputState, text: seq<Utf8.Byte>): (r: Step)
    ensures r.state == s
    ensures r.forwarded.Some? && r.forwarded.value.Key?
    ensures var k := r.forwarded.value;
      && k.special == KeyMap.TB_KEY_UNDEFINED && k.down
      && k.modifiers == Modifiers(s, 0)
      && k.key == Utf8.FirstCharKey(text)
  {
    var modKey := Modifiers(s, 0);
    Step(s, Some(Key(Utf8.FirstCharKey(text), KeyMap.TB_KEY_UNDEFINED, modKey, true)))
  }

  /** For a typed character `c`, the corrected handler forwards `c`, and the
      handler as written forwards the same key exactly when `c` is ASCII;
      otherwise both calls differ only in the key. */
  lemma TextInputCorrectionIff(s: InputState, c: int, rest: seq<Utf8.Byte>)
    requires Utf8.IsScalar(c)
    ensures HandleTextInputCorrected(s, Utf8.Encode(c) + rest).forwarded.value.key == c
    ensures HandleTextInput(s, Utf8.Encode(c) + rest) == HandleTextInputCorrected(s, Utf8.Encode(c) + rest)
      <==> c < 0x80
    ensures HandleTextInput(s, Utf8.Encode(c) + rest).forwarded.value.(key := c)
      == HandleTextInputCorrected(s, Utf8.Encode(c) + rest).forwarded.value
  {
    Utf8.FirstCharKeyOfEncoded(c, rest);
    if c < 0x80 {
      Utf8.FirstByteKeyAsciiAgrees(c, rest);
    } else {
      Utf8.FirstByteKeyNegativeBeyondAscii(c, rest);
    }
  }

  /** Dispatch of one engine event to its handler. */
  function Handle(s: InputState, leftButton: Int32, e: HostEvent): (r: Step)
    ensures r.state.keyMap == s.keyMap
    ensures !e.MouseMove? ==> r.state == s
  {
    match e
    case MouseButtonDown(buttons, q) => HandleMouseButtonDown(s, leftButton, buttons, q)
    case MouseButtonUp(button, q) => HandleMouseButtonUp(s, button, q)
    case MouseMove(x, y, q) => HandleMouseMove(s, x, y, q)
    case MouseWheel(wheel, q) => HandleMouseWheel(s, wheel, q)
    case KeyDown(key, q) => HandleKeyDown(s, key, q)
    case KeyUp(key, q) => HandleKeyUp(s, key, q)
    case TextInput(text) => HandleTextInput(s, text)
  }

  /** Handling a run of events in order: the final state and, for each event,
      the toolkit call it produced. */
  function Run(s: InputState, leftButton: Int32, es: seq<HostEvent>): (r: (InputState, seq<Option<TbEvent>>))
    ensures |r.1| == |es|
  {
    if |es| == 0 then (s, [])
    else
      var (m, outs) := Run(s, leftButton, es[..|es| - 1]);
      var step := Handle(m, leftButton, es[|es| - 1]);
      (step.state, outs + [step.forwarded])
  }

  /** The position of the last mouse-move in `es`, or `start` if there is none. */
  function LastMove(es: seq<HostEvent>, start: Point): Point {
    if |es| == 0 then start
    else if es[|es| - 1].MouseMove? then Point(es[|es| - 1].x, es[|es| - 1].y)
    else LastMove(es[..|es| - 1], start)
  }

  /** The handlers never change the key table, and the remembered position is
      always that of the last mouse-move. */
  lemma {:induction false} RunState(s: InputState, leftButton: Int32, es: seq<HostEvent>)
    ensures Run(s, leftButton, es).0 == InputState(s.keyMap, LastMove(es, s.lastMousePos))
  {
    if |es| > 0 {
      RunState(s, leftButton, es[..|es| - 1]);
    }
  }

  /** The call made for event `i` is the one its handler makes in the state
      left by the events before it. */
  lemma {:induction false} RunOutput(s: InputState, leftButton: Int32, es: seq<HostEvent>, i: nat)
    requires i < |es|
    ensures Run(s, leftButton, es).1[i] == Handle(Run(s, leftButton, es[..i]).0, leftButton, es[i]).forwarded
  {
    var prefix := es[..|es| - 1];
    if i < |es| - 1 {
      assert prefix[..i] == es[..i];
      RunOutput(s, leftButton, prefix, i);
    } else {
      assert prefix == es[..i];
    }
  }

  /** Button and wheel events reach the toolkit at the position of the latest
      mouse-move before them. */
  lemma PointerEventsUseLastMove(s: InputState, leftButton: Int32, es: seq<HostEvent>, i: nat)
    requires i < |es|
    requires es[i].MouseButtonDown? || es[i].MouseButtonUp? || es[i].MouseWheel?
    requires Run(s, leftButton, es).1[i].Some?
    ensures var ev := Run(s, leftButton, es).1[i].value;
      (ev.PointerDown? || ev.PointerUp? || ev.Wheel?) && Point(ev.x, ev.y) == LastMove(es[..i], s.lastMousePos)
  {
    RunOutput(s, leftButton, es, i);
    RunState(s, leftButton, es[..i]);
  }

  /** With the table built at start-up: a press of an ordinary key code is
      forwarded exactly when it is one of the special keys, and then as that
      key's toolkit counterpart. */
  lemma KeyDownForwardedIff(c: KeyMap.Codes, s: InputState, key: Int32, qualifiers: Int32)
    requires KeyMap.Valid(c) && s.keyMap == KeyMap.CreateKeyMap(c)
    requires 0 <= key < KeyMap.QAL_VAL
    ensures HandleKeyDown(s, key, qualifiers).forwarded.Some? <==> exists h :: c.key(h) == key
    ensures forall h :: c.key(h) == key ==>
      HandleKeyDown(s, key, qualifiers).forwarded.value.special == c.special(KeyMap.Counterpart(h))
  {
    KeyMap.SpecialLookupIff(c, key);
    forall h | c.key(h) == key
      ensures HandleKeyDown(s, key, qualifiers).forwarded.value.special == c.special(KeyMap.Counterpart(h))
    {
      KeyMap.SpecialKeysTranslate(c, h);
    }
  }

  /** With the table built at start-up, a forwarded event carries a modifier
      only for a single qualifier mask: combinations, and the empty mask text
      input uses, carry none. */
  lemma ModifiersOnlyForSingleMasks(c: KeyMap.Codes, s: InputState, qualifiers: Int32)
    requires KeyMap.Valid(c) && s.keyMap == KeyMap.CreateKeyMap(c)
    requires 0 <= qualifiers < 0x2000_0000
    ensures forall q :: c.qual(q) == qualifiers ==> Modifiers(s, qualifiers) == c.modifier(KeyMap.ModifierFor(q))
    ensures (forall q :: c.qual(q) != qualifiers) ==> Modifiers(s, qualifiers) == KeyMap.TB_KEY_UNDEFINED
  {
    KeyMap.QualifierLookup(c, qualifiers);
  }

  /** Text input never carries a modifier. */
  lemma TextInputHasNoModifier(c: KeyMap.Codes, s: InputState, text: seq<Utf8.Byte>)
    requires KeyMap.Valid(c) && s.keyMap == KeyMap.CreateKeyMap(c)
    ensures HandleTextInput(s, text).forwarded.value.modifiers == KeyMap.TB_KEY_UNDEFINED
    ensures HandleTextInputCorrected(s, text).forwarded.value.modifiers == KeyMap.TB_KEY_UNDEFINED
  {
    KeyMap.QualifierLookup(c, 0);
  }
}
