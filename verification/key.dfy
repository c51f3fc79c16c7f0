/** The key identifiers the backends produce. A key is its number, the slot
    the keyboard state keeps for it: `None` (no key) is 0, the six modifiers
    are 1 to 6, and the rest follow in the order the Windows virtual-key
    table first names them. Only the keys some backend maps to are declared,
    so every number is below the keyboard table's 175 entries. */
module Keys {

  const KeyCount: nat := 169

  type Key = k: nat | k < KeyCount

  const None: Key := 0
  const LeftShift: Key := 1
  const RightShift: Key := 2
  const LeftControl: Key := 3
  const RightControl: Key := 4
  const LeftMenu: Key := 5
  const RightMenu: Key := 6
  const LeftButton: Key := 7
  const RightButton: Key := 8
  const Cancel: Key := 9
  const MiddleButton: Key := 10
  const XButton1: Key := 11
  const XButton2: Key := 12
  const Back: Key := 13
  const Tab: Key := 14
  const Clear: Key := 15
  const Return: Key := 16
  const Shift: Key := 17
  const Control: Key := 18
  const Menu: Key := 19
  const Pause: Key := 20
  const Capital: Key := 21
  const KanaHangelHangul: Key := 22
  const Junja: Key := 23
  const Final: Key := 24
  const HanjaKanji: Key := 25
  const Escape: Key := 26
  const Convert: Key := 27
  const NonConvert: Key := 28
  const Accept: Key := 29
  const ModeChange: Key := 30
  const Space: Key := 31
  const Prior: Key := 32
  const Next: Key := 33
  const End: Key := 34
  const Home: Key := 35
  const Left: Key := 36
  const Up: Key := 37
  const Right: Key := 38
  const Down: Key := 39
  const Select: Key := 40
  const Print: Key := 41
  const Execute: Key := 42
  const Snapshot: Key := 43
  const Insert: Key := 44
  const Delete: Key := 45
  const Help: Key := 46
  const Key0: Key := 47
  const Key1: Key := 48
  const Key2: Key := 49
  const Key3: Key := 50
  const Key4: Key := 51
  const Key5: Key := 52
  const Key6: Key := 53
  const Key7: Key := 54
  const Key8: Key := 55
  const Key9: Key := 56
  const A: Key := 57
  const B: Key := 58
  const C: Key := 59
  const D: Key := 60
  const E: Key := 61
  const F: Key := 62
  const G: Key := 63
  const H: Key := 64
  const I: Key := 65
  const J: Key := 66
  const K: Key := 67
  const L: Key := 68
  const M: Key := 69
  const N: Key := 70
  const O: Key := 71
  const P: Key := 72
  const Q: Key := 73
  const R: Key := 74
  const S: Key := 75
  const T: Key := 76
  const U: Key := 77
  const V: Key := 78
  const W: Key := 79
  const X: Key := 80
  const Y: Key := 81
  const Z: Key := 82
  const LeftWin: Key := 83
  const RightWin: Key := 84
  const Apps: Key := 85
  const Sleep: Key := 86
  const NumPad0: Key := 87
  const NumPad1: Key := 88
  const NumPad2: Key := 89
  const NumPad3: Key := 90
  const NumPad4: Key := 91
  const NumPad5: Key := 92
  const NumPad6: Key := 93
  const NumPad7: Key := 94
  const NumPad8: Key := 95
  const NumPad9: Key := 96
  const Multiply: Key := 97
  const Add: Key := 98
  const Separator: Key := 99
  const Subtract: Key := 100
  const Decimal: Key := 101
  const Divide: Key := 102
  const F1: Key := 103
  const F2: Key := 104
  const F3: Key := 105
  const F4: Key := 106
  const F5: Key := 107
  const F6: Key := 108
  const F7: Key := 109
  const F8: Key := 110
  const F9: Key := 111
  const F10: Key := 112
  const F11: Key := 113
  const F12: Key := 114
  const F13: Key := 115
  const F14: Key := 116
  const F15: Key := 117
  const F16: Key := 118
  const F17: Key := 119
  const F18: Key := 120
  const F19: Key := 121
  const F20: Key := 122
  const F21: Key := 123
  const F22: Key := 124
  const F23: Key := 125
  const F24: Key := 126
  const NumLock: Key := 127
  const Scroll: Key := 128
  const BrowserBack: Key := 129
  const BrowserForward: Key := 130
  const BrowserRefresh: Key := 131
  const BrowserStop: Key := 132
  const BrowserSearch: Key := 133
  const BrowserFavorites: Key := 134
  const BrowserHome: Key := 135
  const VolumeMute: Key := 136
  const VolumeDown: Key := 137
  const VolumeUp: Key := 138
  const MediaNextTrack: Key := 139
  const MediaPreviousTrack: Key := 140
  const MediaStop: Key := 141
  const MediaPlayPause: Key := 142
  const LaunchMail: Key := 143
  const LaunchMediaSelect: Key := 144
  const LaunchApp1: Key := 145
  const LaunchApp2: Key := 146
  const Oem1: Key := 147
  const Plus: Key := 148
  const Comma: Key := 149
  const Minus: Key := 150
  const Period: Key := 151
  const Oem2: Key := 152
  const Oem3: Key := 153
  const Oem4: Key := 154
  const Oem5: Key := 155
  const Oem6: Key := 156
  const Oem7: Key := 157
  const Oem8: Key := 158
  const ProcessKey: Key := 159
  const ImeProcess: Key := 160
  const Packet: Key := 161
  const Attn: Key := 162
  const CrSel: Key := 163
  const ExSel: Key := 164
  const EraseEof: Key := 165
  const Play: Key := 166
  const Zoom: Key := 167
  const PA1: Key := 168

  /** The letter keys A..Z, digit keys 0..9, number-pad keys and function keys, by position. */
  const Letters: seq<Key> := [
    A, B, C, D, E, F, G, H, I, J, K, L, M,
    N, O, P, Q, R, S, T, U, V, W, X, Y, Z
  ]

  const Digits: seq<Key> := [
    Key0, Key1, Key2, Key3, Key4, Key5, Key6, Key7, Key8, Key9
  ]

  const NumPads: seq<Key> := [
    NumPad0, NumPad1, NumPad2, NumPad3, NumPad4, NumPad5, NumPad6, NumPad7, NumPad8, NumPad9
  ]

  const FunctionKeys: seq<Key> := [
    F1, F2, F3, F4, F5, F6, F7, F8, F9, F10, F11, F12,
    F13, F14, F15, F16, F17, F18, F19, F20, F21, F22, F23, F24
  ]

  /** No letter or digit slot holds `None`. */
  lemma LettersAndDigitsAreKeys()
    ensures forall i :: 0 <= i < |Letters| ==> Letters[i] != None
    ensures forall i :: 0 <= i < |Digits| ==> Digits[i] != None
    ensures forall i :: 0 <= i < |NumPads| ==> NumPads[i] != None
    ensures forall i :: 0 <= i < |FunctionKeys| ==> FunctionKeys[i] != None
    ensures |Letters| == 26 && |Digits| == 10 && |NumPads| == 10 && |FunctionKeys| == 24
  {
  }

  /** The six modifier keys whose table entries every keyboard update overwrites. */
  predicate IsModifier(k: Key)
  {
    k == LeftShift || k == LeftControl || k == LeftMenu || k == RightShift || k == RightControl || k == RightMenu
  }

  /** The modifiers are exactly the keys numbered 1 to 6. */
  lemma ModifierNumbers(k: Key)
    ensures IsModifier(k) <==> 1 <= k <= 6
    ensures LeftShift == 1 && RightShift == 2 && LeftControl == 3
    ensures RightControl == 4 && LeftMenu == 5 && RightMenu == 6
  {
  }
}
