/** Which keys are held, as a 175-entry table indexed by key number. */
module KeyboardStates {
  import opened Keys
  import opened Events

  const TableSize: nat := 175

  datatype KeyboardState = KeyboardState(keys: seq<bool>)

  /** The table always has its fixed length. */
  predicate Valid(s: KeyboardState)
  {
    |s.keys| == TableSize
  }

  predicate IsDown(s: KeyboardState, k: Key)
    requires Valid(s)
  {
    s.keys[k]
  }

  /** No key held. */
  function New(): (r: KeyboardState)
    ensures Valid(r)
    ensures forall i :: 0 <= i < TableSize ==> !r.keys[i]
  {
    KeyboardState(seq(TableSize, _ => false))
  }

  /** The table with entries 1 to 6 (left shift, right shift, left control,
      right control, left menu, right menu) set to the given flags. */
  function SetModifiers(keys: seq<bool>, ls: bool, rs: bool, lc: bool, rc: bool, lm: bool, rm: bool): (r: seq<bool>)
    requires |keys| == TableSize
    ensures |r| == TableSize
    ensures r[1] == ls && r[2] == rs && r[3] == lc && r[4] == rc && r[5] == lm && r[6] == rm
    ensures forall i :: 0 <= i < TableSize && (i < 1 || 6 < i) ==> r[i] == keys[i]
  {
    keys[LeftShift := ls][LeftControl := lc][LeftMenu := lm][RightShift := rs][RightControl := rc][RightMenu := rm]
  }

  /** The table with `slot` set to `down`, then the modifier entries set to the given flags. */
  function WriteSlots(keys: seq<bool>, slot: nat, down: bool,
                      ls: bool, rs: bool, lc: bool, rc: bool, lm: bool, rm: bool): (r: seq<bool>)
    requires |keys| == TableSize && slot < TableSize
    ensures |r| == TableSize
    ensures r[1] == ls && r[2] == rs && r[3] == lc && r[4] == rc && r[5] == lm && r[6] == rm
    ensures !(1 <= slot <= 6) ==> r[slot] == down
    ensures forall i :: 0 <= i < TableSize && i != slot && !(1 <= i <= 6) ==> r[i] == keys[i]
  {
    SetModifiers(keys[slot := down], ls, rs, lc, rc, lm, rm)
  }

  /** Records the event's key as held exactly when the event is a key-down, then
      overwrites the six modifier entries with the event's modifier flags. */
  function UpdateFromEvent(s: KeyboardState, keyboard: KeyboardEvent): (r: KeyboardState)
    requires Valid(s)
    ensures Valid(r)
    ensures IsDown(r, LeftShift) == keyboard.leftShift
    ensures IsDown(r, LeftControl) == keyboard.leftControl
    ensures IsDown(r, LeftMenu) == keyboard.leftMenu
    ensures IsDown(r, RightShift) == keyboard.rightShift
    ensures IsDown(r, RightControl) == keyboard.rightControl
    ensures IsDown(r, RightMenu) == keyboard.rightMenu
    ensures !IsModifier(keyboard.key) ==> IsDown(r, keyboard.key) == (keyboard.eventType == KeyDown)
    ensures forall i :: 0 <= i < TableSize && i != keyboard.key && !(1 <= i <= 6) ==> r.keys[i] == s.keys[i]
  {
    ModifierNumbers(keyboard.key);
    KeyboardState(WriteSlots(s.keys, keyboard.key, keyboard.eventType == KeyDown,
      keyboard.leftShift, keyboard.rightShift, keyboard.leftControl,
      keyboard.rightControl, keyboard.leftMenu, keyboard.rightMenu))
  }

  /** For a modifier key the flag wins over the event type: a key-down of left
      shift whose flag says released leaves left shift released. */
  lemma ModifierFlagWins(s: KeyboardState, keyboard: KeyboardEvent)
    requires Valid(s)
    requires keyboard.key == LeftShift && keyboard.eventType == KeyDown && !keyboard.leftShift
    ensures !IsDown(UpdateFromEvent(s, keyboard), LeftShift)
  {
  }

  /** Applying the same event twice is the same as applying it once. */
  lemma UpdateIsIdempotent(s: KeyboardState, keyboard: KeyboardEvent)
    requires Valid(s)
    ensures UpdateFromEvent(UpdateFromEvent(s, keyboard), keyboard) == UpdateFromEvent(s, keyboard)
  {
    var once := UpdateFromEvent(s, keyboard);
    var twice := UpdateFromEvent(once, keyboard);
    forall i | 0 <= i < TableSize
      ensures twice.keys[i] == once.keys[i]
    {
      if i == keyboard.key || 1 <= i <= 6 {
      }
    }
  }
}
