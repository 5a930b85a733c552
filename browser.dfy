/** The effects the relay has on the outside world: what it does to the
    channel page, and the one request it makes to the chat backend. A
    `Textbox` reading of these effects says what reaches the channel. */
module Browser {

  datatype Key = Enter | Shift | Backspace

  datatype Effect =
    | TypeText(text: string)  // page.type on the message textbox
    | PressKey(key: Key)      // page.press on the message textbox
    | KeyDown(key: Key)       // page.keyboard.down
    | KeyPress(key: Key)      // page.keyboard.press
    | KeyUp(key: Key)         // page.keyboard.up
    | PostAsk(message: string) // POST {API_URL}/ask with {"message": message}

  /** The channel's message box: the draft being composed, whether Shift is
      held, and the messages submitted so far. Enter submits the draft as one
      turn, Shift+Enter inserts a line break, Backspace deletes the last
      character. (An Enter on an empty draft counts as a blank turn here.) */
  datatype Textbox = Textbox(draft: string, shiftHeld: bool, sent: seq<string>)

  function Press(t: Textbox, k: Key): Textbox
  {
    match k
    case Enter =>
      if t.shiftHeld then t.(draft := t.draft + "\n")
      else t.(draft := "", sent := t.sent + [t.draft])
    case Backspace =>
      if t.draft == [] then t else t.(draft := t.draft[..|t.draft| - 1])
    case Shift => t
  }

  /** One effect on the message box. Typed text is inserted literally,
      a carriage return included. */
  function Step(t: Textbox, e: Effect): Textbox
  {
    match e
    case TypeText(x) => t.(draft := t.draft + x)
    case PressKey(k) => Press(t, k)
    case KeyPress(k) => Press(t, k)
    case KeyDown(k) => if k == Shift then t.(shiftHeld := true) else t
    case KeyUp(k) => if k == Shift then t.(shiftHeld := false) else t
    case PostAsk(_) => t
  }

  /** The message box after the effects, in order. */
  function Run(t: Textbox, effects: seq<Effect>): Textbox
    decreases |effects|
  {
    if effects == [] then t else Run(Step(t, effects[0]), effects[1..])
  }

  /** Running two traces one after the other is running their concatenation. */
  lemma {:induction false} RunAppend(t: Textbox, a: seq<Effect>, b: seq<Effect>)
    ensures Run(t, a + b) == Run(Run(t, a), b)
    decreases |a|
  {
    if a == [] {
      assert a + b == b;
    } else {
      assert (a + b)[0] == a[0] && (a + b)[1..] == a[1..] + b;
      RunAppend(Step(t, a[0]), a[1..], b);
    }
  }

  /** The number of times `e` occurs in a trace. */
  function Count(effects: seq<Effect>, e: Effect): (n: nat)
    ensures n <= |effects|
    ensures n == 0 <==> e !in effects
    decreases |effects|
  {
    if effects == [] then 0
    else (if effects[0] == e then 1 else 0) + Count(effects[1..], e)
  }

  lemma {:induction false} CountAppend(a: seq<Effect>, b: seq<Effect>, e: Effect)
    ensures Count(a + b, e) == Count(a, e) + Count(b, e)
    decreases |a|
  {
    if a == [] {
      assert a + b == b;
    } else {
      assert (a + b)[0] == a[0] && (a + b)[1..] == a[1..] + b;
      CountAppend(a[1..], b, e);
    }
  }

  /** The channel page, recording every effect performed on it. */
  class Page {
    var effects: seq<Effect>

    constructor ()
      ensures effects == []
    {
      effects := [];
    }

    /** `page.type('div[role="textbox"]', text)`. */
    method Type(text: string)
      modifies this
      ensures effects == old(effects) + [TypeText(text)]
    {
      effects := effects + [TypeText(text)];
    }

    /** `page.press('div[role="textbox"]', key)`. */
    method PressOnTextbox(key: Key)
      modifies this
      ensures effects == old(effects) + [PressKey(key)]
    {
      effects := effects + [PressKey(key)];
    }

    /** `page.keyboard.down(key)`. */
    method KeyboardDown(key: Key)
      modifies this
      ensures effects == old(effects) + [KeyDown(key)]
    {
      effects := effects + [KeyDown(key)];
    }

    /** `page.keyboard.press(key)`. */
    method KeyboardPress(key: Key)
      modifies this
      ensures effects == old(effects) + [KeyPress(key)]
    {
      effects := effects + [KeyPress(key)];
    }

    /** `page.keyboard.up(key)`. */
    method KeyboardUp(key: Key)
      modifies this
      ensures effects == old(effects) + [KeyUp(key)]
    {
      effects := effects + [KeyUp(key)];
    }

    /** The POST to the backend, recorded beside the page effects so that
        their relative order is visible. */
    method Post(message: string)
      modifies this
      ensures effects == old(effects) + [PostAsk(message)]
    {
      effects := effects + [PostAsk(message)];
    }
  }
}
