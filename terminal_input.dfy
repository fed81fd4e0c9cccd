/**
 * The terminal input handler (src/input/terminal_input_handler.rs): key and
 * mouse events become input actions kept in two sets, one whose actions stay
 * until their key is released and one emptied at every poll.
 */
module TerminalInput {
  import opened Vectors
  import opened Input
  import opened Screen

  type U16 = x: int | 0 <= x < 0x1_0000

  /** The parts of crossterm's events the handler looks at. */
  datatype KeyCode = Esc | Tab | Char(c: char) | OtherKey
  datatype KeyEventKind = Press | Repeat | Release
  datatype KeyEvent = KeyEvent(code: KeyCode, kind: KeyEventKind)
  datatype MouseEventKind = Moved | OtherMouseKind
  datatype MouseEvent = MouseEvent(kind: MouseEventKind, column: U16, row: U16)
  datatype Event = Key(key: KeyEvent) | Mouse(mouse: MouseEvent) | OtherEvent

  /**
   * What `event::poll` and `event::read` deliver within the frame's wait: nothing,
   * one event, or an I/O error from either call.
   */
  datatype PollOutcome = Timeout | Ready(event: Event) | Failed

  /** The character keys that move the camera. */
  const MovementKeys: set<char> := {'w', 'a', 's', 'd', 'q', 'e'}

  /** `map_key_to_action`: Esc quits, w/a/s/d/q/e move, every other key does nothing. */
  function MapKeyToAction(code: KeyCode): (r: Option<InputAction>)
    ensures r == Some(Quit) <==> code == Esc
    ensures r.None? <==> code != Esc && !(code.Char? && code.c in MovementKeys)
    ensures r.Some? && code != Esc ==> r.value.ActionOnScene? && r.value.action.Move?
  {
    if code == Esc then Some(Quit)
    else if !code.Char? then None
    else
      var dir := match code.c
        case 'w' => Some(Forward)
        case 'a' => Some(Left)
        case 's' => Some(Backward)
        case 'd' => Some(Right)
        case 'q' => Some(Down)
        case 'e' => Some(Up)
        case _ => None;
      if dir.None? then None else Some(ActionOnScene(Move(dir.value)))
  }

  /** The key bound to each direction. */
  function KeyFor(dir: MoveDirection): (r: char) {
    match dir
    case Forward => 'w'
    case Left => 'a'
    case Backward => 's'
    case Right => 'd'
    case Down => 'q'
    case Up => 'e'
  }

  /** A key moves in a direction exactly when it is that direction's key: the table is one-to-one. */
  lemma MoveKeyTable(code: KeyCode, dir: MoveDirection)
    ensures MapKeyToAction(code) == Some(ActionOnScene(Move(dir))) <==> code == Char(KeyFor(dir))
  {
  }

  /** Actions a held key produces: Quit and the moves. */
  predicate Toggleable(a: InputAction) {
    a.Quit? || (a.ActionOnScene? && a.action.Move?)
  }

  /** Actions that last a single poll: the render-type switch and the camera rotations. */
  predicate OneShot(a: InputAction) {
    a.ChangeRenderType? || (a.ActionOnScene? && a.action.RotateCamera?)
  }

  /** The held-actions set after one key event. */
  function ToggledAfterKey(toggled: set<InputAction>, e: KeyEvent): (r: set<InputAction>) {
    if e.code == Tab && e.kind == Press then toggled
    else match e.kind
      case Press => if MapKeyToAction(e.code).Some? then toggled + {MapKeyToAction(e.code).value} else toggled
      case Release => if MapKeyToAction(e.code).Some? then toggled - {MapKeyToAction(e.code).value} else toggled
      case Repeat => toggled
  }

  /** The one-shot set after one key event: only a Tab press adds to it. */
  function OneShotAfterKey(single: set<InputAction>, e: KeyEvent): (r: set<InputAction>) {
    if e.code == Tab && e.kind == Press then single + {ChangeRenderType} else single
  }

  /**
   * An action is held after a key event exactly when the event is a press whose
   * key maps to it, or it was held already and the event is not the release of
   * its key.
   */
  lemma ToggledAfterKeyMembership(toggled: set<InputAction>, e: KeyEvent, a: InputAction)
    ensures a in ToggledAfterKey(toggled, e) <==>
      (e.kind == Press && MapKeyToAction(e.code) == Some(a)) ||
      (a in toggled && !(e.kind == Release && MapKeyToAction(e.code) == Some(a)))
  {
  }

  /** Pressing a key and releasing it leaves its action not held and every other action as it was. */
  lemma {:induction false} PressThenRelease(toggled: set<InputAction>, code: KeyCode)
    ensures ToggledAfterKey(ToggledAfterKey(toggled, KeyEvent(code, Press)), KeyEvent(code, Release))
         == (if MapKeyToAction(code).Some? then toggled - {MapKeyToAction(code).value} else toggled)
  {
    if code == Tab {
      assert MapKeyToAction(code).None?;
    }
  }

  /** A second press of a held key, and any auto-repeat, changes nothing. */
  lemma PressIsIdempotent(toggled: set<InputAction>, code: KeyCode)
    ensures ToggledAfterKey(ToggledAfterKey(toggled, KeyEvent(code, Press)), KeyEvent(code, Press))
         == ToggledAfterKey(toggled, KeyEvent(code, Press))
    ensures ToggledAfterKey(toggled, KeyEvent(code, Repeat)) == toggled
  {
  }

  /**
   * `pixel_to_screen_space`: the centre of a character cell, with the first
   * coordinate scaled by the screen width and the second by the screen height,
   * mapped to [-1, 1] with y pointing up.
   */
  function PixelToScreenSpace(row: U16, col: U16): (r: Vec2) {
    var pixelXMiddle := row as real + 0.5;
    var pixelYMiddle := col as real + 0.5;
    var xNormalized := pixelXMiddle / ScreenWidth as real;
    var yNormalized := pixelYMiddle / ScreenHeight as real;
    Vec2(2.0 * xNormalized - 1.0, 1.0 - 2.0 * yNormalized)
  }

  /** The inverse of `PixelToScreenSpace`, back to the two cell coordinates. */
  function ScreenSpaceToPixel(v: Vec2): (r: (real, real)) {
    ScreenDimensions();
    ((v.x + 1.0) * ScreenWidth as real / 2.0 - 0.5, (1.0 - v.y) * ScreenHeight as real / 2.0 - 0.5)
  }

  /**
   * No two cells share a screen-space point, and a cell on the screen lands
   * strictly inside the square (-1, 1) x (-1, 1).
   */
  lemma ScreenSpaceRoundTrip(row: U16, col: U16)
    ensures ScreenSpaceToPixel(PixelToScreenSpace(row, col)) == (row as real, col as real)
    ensures row < ScreenWidth && col < ScreenHeight ==>
      -1.0 < PixelToScreenSpace(row, col).x < 1.0 && -1.0 < PixelToScreenSpace(row, col).y < 1.0
  {
    ScreenDimensions();
  }

  /** `f32::round`: to the nearest integer, halves away from zero. */
  function Round(x: real): (r: int) {
    if 0.0 <= x then (x + 0.5).Floor else -((-x + 0.5).Floor)
  }

  /** Rounding moves a value by at most one half and is symmetric about zero. */
  lemma RoundIsNearest(x: real)
    ensures -0.5 <= Round(x) as real - x <= 0.5
    ensures Round(-x) == -Round(x)
  {
  }

  /** `as i16` on a float: saturates at the ends of the 16-bit range. */
  function SaturateI16(n: int): (r: I16)
    ensures -0x8000 <= n < 0x8000 ==> r == n
    ensures n < -0x8000 ==> r == -0x8000
    ensures 0x8000 <= n ==> r == 0x7FFF
  {
    if n < -0x8000 then -0x8000 else if 0x7FFF < n then 0x7FFF else n
  }

  /** The rotation delta between the last mouse position and the current one, in thousandths of screen space. */
  function MouseDelta(last: (U16, U16), current: (U16, U16)): (r: (I16, I16)) {
    var lastScreen := PixelToScreenSpace(last.0, last.1);
    var currentScreen := PixelToScreenSpace(current.0, current.1);
    (SaturateI16(Round((lastScreen.x - currentScreen.x) * 1000.0)),
     SaturateI16(Round((lastScreen.y - currentScreen.y) * 1000.0)))
  }

  /**
   * The first coordinate of a mouse position is its terminal row, and it is
   * divided by the width 213. A vertical move from row 212 to row 0 therefore
   * gives a first delta component of 1991, beyond the +-1000 the action's
   * documentation states.
   */
  lemma WideMoveExceedsDocumentedRange()
    ensures MouseDelta((212, 0), (0, 0)).0 == 1991
  {
    ScreenDimensions();
    var dx := (PixelToScreenSpace(212, 0).x - PixelToScreenSpace(0, 0).x) * 1000.0;
    assert dx == 424000.0 / 213.0;
    assert 1991.0 <= dx + 0.5 < 1992.0;
  }

  /**
   * A horizontal move across the 426 columns of the drawn frame (two characters
   * per pixel), from column 0 to column 425, gives a second delta component of
   * 7083, since the column is divided by the height 120.
   */
  lemma FrameSweepExceedsDocumentedRange()
    ensures MouseDelta((10, 0), (10, 425)).1 == 7083
  {
    ScreenDimensions();
    var dy := (PixelToScreenSpace(10, 0).y - PixelToScreenSpace(10, 425).y) * 1000.0;
    assert dy == 850000.0 / 120.0;
    assert 7083.0 <= dy + 0.5 < 7084.0;
  }

  /**
   * A mouse that has not moved yields a zero delta. When the row difference is
   * below 213 and the column difference below 120, swapping the two positions
   * negates the delta and each component stays within 2000 (not within the
   * 1000 the action's documentation states).
   */
  lemma MouseDeltaProperties(p: (U16, U16), q: (U16, U16))
    ensures MouseDelta(p, p) == (0, 0)
    ensures -(ScreenWidth as int) < p.0 - q.0 < ScreenWidth && -(ScreenHeight as int) < p.1 - q.1 < ScreenHeight ==>
      -2000 <= MouseDelta(p, q).0 <= 2000 && -2000 <= MouseDelta(p, q).1 <= 2000 &&
      MouseDelta(q, p) == (-MouseDelta(p, q).0, -MouseDelta(p, q).1)
  {
    ScreenDimensions();
    var dx := (PixelToScreenSpace(p.0, p.1).x - PixelToScreenSpace(q.0, q.1).x) * 1000.0;
    var dy := (PixelToScreenSpace(p.0, p.1).y - PixelToScreenSpace(q.0, q.1).y) * 1000.0;
    assert dx == (p.0 - q.0) as real * 2000.0 / 213.0;
    assert dy == (q.1 - p.1) as real * 2000.0 / 120.0;
    assert (PixelToScreenSpace(q.0, q.1).x - PixelToScreenSpace(p.0, p.1).x) * 1000.0 == -dx;
    assert (PixelToScreenSpace(q.0, q.1).y - PixelToScreenSpace(p.0, p.1).y) * 1000.0 == -dy;
    RoundIsNearest(dx);
    RoundIsNearest(dy);
  }

  /** The one-shot set after a mouse event: only a move with a known previous position adds a rotation. */
  function OneShotAfterMouse(single: set<InputAction>, e: MouseEvent, last: Option<(U16, U16)>): (r: set<InputAction>) {
    if e.kind != Moved || last.None? then single
    else
      var delta := MouseDelta(last.value, (e.row, e.column));
      single + {ActionOnScene(RotateCamera(delta.0, delta.1))}
  }

  class TerminalInputHandler {
    var toggledActions: set<InputAction>
    var singleTimeActions: set<InputAction>
    var lastMousePos: Option<(U16, U16)>

    /** Held actions are Quit and moves; one-shot actions are render switches and rotations, so the sets never overlap. */
    ghost predicate Valid()
      reads this
      ensures Valid() ==> toggledActions !! singleTimeActions
    {
      (forall a :: a in toggledActions ==> Toggleable(a)) &&
      (forall a :: a in singleTimeActions ==> OneShot(a))
    }

    constructor ()
      ensures Valid()
      ensures toggledActions == {} && singleTimeActions == {} && lastMousePos == None
    {
      toggledActions, singleTimeActions, lastMousePos := {}, {}, None;
    }

    /** `contains_input`: the action is held or was produced by the latest poll. */
    function ContainsInput(a: InputAction): (r: bool)
      reads this
      ensures r <==> a in InputActions()
    {
      a in toggledActions || a in singleTimeActions
    }

    /** `input_actions`: the held actions followed by the one-shot ones, as a set. */
    function InputActions(): (r: set<InputAction>)
      reads this
      ensures toggledActions <= r && singleTimeActions <= r
      ensures forall a :: a in r ==> a in toggledActions || a in singleTimeActions
    {
      toggledActions + singleTimeActions
    }

    /** `scene_actions`: the payloads of exactly the `ActionOnScene` members of `input_actions`. */
    function SceneActions(): (r: set<SceneAction>)
      reads this
      ensures forall s :: s in r <==> ActionOnScene(s) in InputActions()
    {
      set a | a in toggledActions + singleTimeActions && a.ActionOnScene? :: a.action
    }

    /**
     * `handle_key_event`: a Tab press adds `ChangeRenderType` to the one-shot set and
     * nothing else; a press or release of a mapped key adds or removes its action
     * in the held set; anything else changes nothing.
     */
    method HandleKeyEvent(e: KeyEvent)
      requires Valid()
      modifies this
      ensures Valid()
      ensures toggledActions == ToggledAfterKey(old(toggledActions), e)
      ensures singleTimeActions == OneShotAfterKey(old(singleTimeActions), e)
      ensures lastMousePos == old(lastMousePos)
    {
      if e.code == Tab && e.kind == Press {
        singleTimeActions := singleTimeActions + {ChangeRenderType};
        return;
      }
      match e.kind {
        case Press =>
          var action := MapKeyToAction(e.code);
          if action.Some? {
            toggledActions := toggledActions + {action.value};
          }
        case Release =>
          var action := MapKeyToAction(e.code);
          if action.Some? {
            toggledActions := toggledActions - {action.value};
          }
        case Repeat =>
      }
    }

    /**
     * `handle_mouse_event`: only a move, and only when a previous position is
     * known, adds a rotation to the one-shot set.
     */
    method HandleMouseEvent(e: MouseEvent, last: Option<(U16, U16)>)
      requires Valid()
      modifies this
      ensures Valid()
      ensures singleTimeActions == OneShotAfterMouse(old(singleTimeActions), e, last)
      ensures toggledActions == old(toggledActions) && lastMousePos == old(lastMousePos)
    {
      if e.kind != Moved {
        return;
      }
      if last.Some? {
        var delta := MouseDelta(last.value, (e.row, e.column));
        var action := ActionOnScene(RotateCamera(delta.0, delta.1));
        singleTimeActions := singleTimeActions + {action};
      }
    }

    /**
     * `poll_event`: the one-shot set is emptied first, whatever happens next;
     * then at most one event is handled, and a mouse event of any kind records its
     * position. It reports failure exactly when polling or reading failed.
     */
    method PollEvent(outcome: PollOutcome) returns (ok: bool)
      requires Valid()
      modifies this
      ensures Valid()
      ensures ok <==> !outcome.Failed?
      ensures |singleTimeActions| <= 1
      ensures singleTimeActions == match outcome
        case Ready(Key(k)) => OneShotAfterKey({}, k)
        case Ready(Mouse(me)) => OneShotAfterMouse({}, me, old(lastMousePos))
        case _ => {}
      ensures toggledActions == match outcome
        case Ready(Key(k)) => ToggledAfterKey(old(toggledActions), k)
        case _ => old(toggledActions)
      ensures lastMousePos == match outcome
        case Ready(Mouse(me)) => Some((me.row, me.column))
        case _ => old(lastMousePos)
    {
      singleTimeActions := {};
      match outcome {
        case Failed =>
          return false;
        case Timeout =>
          return true;
        case Ready(event) =>
          match event {
            case Key(keyEvent) =>
              HandleKeyEvent(keyEvent);
            case Mouse(mouseEvent) =>
              HandleMouseEvent(mouseEvent, lastMousePos);
              lastMousePos := Some((mouseEvent.row, mouseEvent.column));
            case OtherEvent =>
          }
      }
      ok := true;
    }
  }

  /** A key event never puts a one-shot action in the held set, nor a held action in the one-shot set. */
  lemma KeyEventsKeepKinds(toggled: set<InputAction>, single: set<InputAction>, e: KeyEvent)
    requires forall a :: a in toggled ==> Toggleable(a)
    requires forall a :: a in single ==> OneShot(a)
    ensures forall a :: a in ToggledAfterKey(toggled, e) ==> Toggleable(a)
    ensures forall a :: a in OneShotAfterKey(single, e) ==> OneShot(a)
  {
  }
}
