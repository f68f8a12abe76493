# nanoKONTROL2 control registry, modelled in Dafny

This project models the control registry of NanoKontrolTwo, a Swift package for the
KORG nanoKONTROL2 MIDI control surface. A decoded Control Change message
`(data1, data2)` is routed through a lookup table from MIDI controller number to
`Kontrol`. The matching control's `value` is set and its update handler is notified.

- `kontrol.dfy` (module `Kontrols`): the `Kontrol` value type. It holds a kind (slider,
  knob or button), a label, a controller number, a value and an optional update handler.
  Assigning the value (`SetValue`) stores the integer unchanged, then calls the handler
  once, if there is one, with the updated copy. `IsPressed` and `IsReleased` are derived
  from the kind and the value. A handler is an abstract token, and calling it is
  recorded as a `Notification` that carries the handler and the copy it was passed.
- `layout.dfy` (module `Layout`): the fixed layout. `TrackFor(n)` builds one channel
  strip on controller numbers n, n+16, n+32, n+48 and n+64. `DefaultButtons` is the
  transport bank of 11 buttons with hand-assigned numbers. `RegistrationOrder` gives the
  order in which the table registers controls: the buttons first, then every strip in
  index order. The lemmas prove that a new surface registers 51 controls on 51 distinct
  numbers. Those numbers are exactly the transport numbers plus t + 16p for t < 8 and p < 5.
- `lookup_table.dfy` (module `LookupTable`): the table. `Register` is the specification
  of filling a dictionary one control at a time, where a later control overwrites an
  earlier one on the same number. `BuildTable` applies it to the registration order.
  `BuildLookupTable` is the imperative builder with its nested loops, proved equal to
  `BuildTable`. `DispatchStep` is the dispatch of one message, and `DispatchAll` handles
  a stream of messages in arrival order.
- `surface.dfy` (module `Surface`): the `NanoKontrol` class. Its fields `tracks` and
  `buttons` are public and writable. `lookupTable` is `None` until first use and holds
  the memoised table after that. `Dispatch` is the body of the message sink. A ghost
  log `notifications` records every handler call. The invariant `Valid()` says two things
  once the table is built. The table differs from the controls registered at build time
  only in their values. Every logged call used a handler that a control had when the
  table was built. Two client methods, `HandlerSetBeforeFirstUse` and
  `HandlerSetAfterFirstUse`, show that a handler set on a strip reaches the table only
  if it was set before first use.

`Kontrol` is a Swift `struct`, so the table holds copies. A dispatch writes only the
table's copy and never the controls in `tracks` or `buttons`: dispatch never changes
them. `value` is stored with no range check.

## Model

| member | source | states |
|---|---|---|
| Kontrols.MakeKontrol | Sources/NanoKontrolTwo/NanoKontrol.swift:14-18 | the memberwise initialiser keeps the given kind, name and number, and starts at value 0 with no handler |
| Kontrols.SetValue | Sources/NanoKontrolTwo/NanoKontrol.swift:18-23 | the stored value is exactly the assigned integer (no clamping) and nothing else changes; one notification with the post-assignment copy if a handler is present, none otherwise |
| Kontrols.IsPressed | Sources/NanoKontrolTwo/NanoKontrol.swift:29-32 | only a button can be pressed, and a button is pressed iff its value is 127 |
| Kontrols.IsReleased | Sources/NanoKontrolTwo/NanoKontrol.swift:34-37 | only a button can be released, and a button is released iff its value is 0 |
| Kontrols.ButtonStates | Sources/NanoKontrolTwo/NanoKontrol.swift:29-37 | a control is never both pressed and released, and sliders and knobs are neither, whatever their value |
| Kontrols.StatesAfterAssignment | Sources/NanoKontrolTwo/NanoKontrol.swift:18-37 | after assigning v, pressed iff button and v = 127, released iff button and v = 0 |
| Kontrols.AssignTwice | Sources/NanoKontrolTwo/NanoKontrol.swift:18-23 | two assignments leave the second value and notify once per assignment (two calls with a handler, none without) |
| Layout.AllKontrols | Sources/NanoKontrolTwo/NanoKontrol.swift:49-51 | a strip lists five controls: slider, knob, solo, mute, record, in that order |
| Layout.TrackFor | Sources/NanoKontrolTwo/NanoKontrol.swift:53-59 | strip n puts slider, knob, solo, mute, record on n, n+16, n+32, n+48, n+64 with kinds slider, knob, button, button, button, labels with ordinal n+1, value 0 and no handler |
| Layout.DefaultButtons | Sources/NanoKontrolTwo/NanoKontrol.swift:63-73 | the default bank lists 11 buttons on 43, 44, 46, 58, 59, 42, 41, 45, 60, 61, 62 in allButtons order, each a button at value 0 with no handler |
| Layout.AllButtons | Sources/NanoKontrolTwo/NanoKontrol.swift:75-77 | the bank lists its 11 buttons in the order rewind, forward, cycle, previous track, next track, stop, play, record, set marker, previous marker, next marker |
| Layout.TransportIdsDistinct | Sources/NanoKontrolTwo/NanoKontrol.swift:63-73 | the eleven hand-assigned transport numbers are pairwise distinct |
| Layout.StandardTracks | Sources/NanoKontrolTwo/NanoKontrol.swift:87 | a new surface has 8 strips, and strip t is the strip for number t |
| Layout.Flatten | Sources/NanoKontrolTwo/NanoKontrol.swift:83 | walking every strip's controls visits 5 controls per strip |
| Layout.FlattenAt | Sources/NanoKontrolTwo/NanoKontrol.swift:49-51 | control p of strip t is the (5t+p)-th control visited |
| Layout.RegistrationOrder | Sources/NanoKontrolTwo/NanoKontrol.swift:82-83 | the table registers the 11 buttons first and then the controls of every strip, strip after strip |
| Layout.ReplaceTrackOrder | Sources/NanoKontrolTwo/NanoKontrol.swift:82-83 | replacing strip t changes only registration slots 11+5t to 11+5t+4, which become the new strip's controls |
| Layout.StandardButtonAt | Sources/NanoKontrolTwo/NanoKontrol.swift:63-76 | the first 11 registered controls of a new surface are the transport buttons, on the listed numbers, at value 0 with no handler |
| Layout.StandardStripAt | Sources/NanoKontrolTwo/NanoKontrol.swift:54-58 | control p of strip t is registered at 11+5t+p, listens on t+16p, has the kind of part p, value 0 and no handler |
| Layout.TransportIdRange | Sources/NanoKontrolTwo/NanoKontrol.swift:63-73 | every transport number is in 41..46 or 58..62 |
| Layout.StandardIdsDistinct | Sources/NanoKontrolTwo/NanoKontrol.swift:54-76 | a new surface registers 51 controls whose numbers are pairwise distinct |
| Layout.StandardIdsDiffer | Sources/NanoKontrolTwo/NanoKontrol.swift:54-76 | two different registration slots of a new surface listen on different numbers |
| Layout.StandardIdsAreSurfaceIds | Sources/NanoKontrolTwo/NanoKontrol.swift:54-76 | every registered number is a transport number or t+16p with t < 8, p < 5 |
| Layout.SurfaceIdsAreStandardIds | Sources/NanoKontrolTwo/NanoKontrol.swift:54-76 | every such number is registered by some control |
| Layout.StandardIdsAre | Sources/NanoKontrolTwo/NanoKontrol.swift:82-83 | a number is registered iff it is a surface number |
| LookupTable.Register | Sources/NanoKontrolTwo/NanoKontrol.swift:81-83 | registering controls one at a time keeps every entry under its own controller number |
| LookupTable.BuildTable | Sources/NanoKontrolTwo/NanoKontrol.swift:80-85 | the built table has a key for exactly the registered numbers, each entry stored under its own number |
| LookupTable.RegisterKeys | Sources/NanoKontrolTwo/NanoKontrol.swift:81-83 | after registering, the keys are the old keys plus the registered numbers |
| LookupTable.RegisterUntouched | Sources/NanoKontrolTwo/NanoKontrol.swift:81-83 | a number nobody registers keeps its entry, or its absence |
| LookupTable.RegisterLastWins | Sources/NanoKontrolTwo/NanoKontrol.swift:82-83 | on a shared number the control registered last is the entry |
| LookupTable.RegisterFrom | Sources/NanoKontrolTwo/NanoKontrol.swift:82-83 | a registered number maps to a registered control carrying that number |
| LookupTable.RegisterAppend | Sources/NanoKontrolTwo/NanoKontrol.swift:82-83 | registering the buttons and then the strips is one registration of the concatenation |
| LookupTable.RegisterDistinctSize | Sources/NanoKontrolTwo/NanoKontrol.swift:81-84 | controls on distinct numbers give a table with exactly one key per control |
| LookupTable.LastWinsWhenDistinct | Sources/NanoKontrolTwo/NanoKontrol.swift:82-83 | with distinct numbers each registered control is the entry under its number |
| LookupTable.BuildTableStructure | Sources/NanoKontrolTwo/NanoKontrol.swift:80-85 | the built table has a key for exactly the button and strip numbers; a number a strip uses maps to a strip control, overriding a button on it; otherwise it maps to a button; every entry's number equals its key |
| LookupTable.StandardTableShape | Sources/NanoKontrolTwo/NanoKontrol.swift:80-88 | a new surface's table has exactly 51 keys, the surface numbers; each registered control is the entry under its number; all entries have value 0 and no handler |
| LookupTable.StandardEntryPristine | Sources/NanoKontrolTwo/NanoKontrol.swift:80-88 | every entry of a new surface's table has value 0 and no handler |
| LookupTable.ReplacedStripReachesTable | Sources/NanoKontrolTwo/NanoKontrol.swift:80-87 | a strip replaced before first use on the same numbers is what the table holds: its control p, handler included, is the entry under t+16p |
| LookupTable.BuildLookupTable | Sources/NanoKontrolTwo/NanoKontrol.swift:80-85 | the nested-loop builder yields the registration of the buttons and then each strip in index order |
| LookupTable.DispatchStep | Sources/NanoKontrolTwo/NanoKontrol.swift:97 | a mapped number gets exactly the new value, and every other entry and key is unchanged; an unmapped number changes nothing and notifies no one; exactly one notification, with the updated copy, iff the entry has a handler |
| LookupTable.DispatchAll | Sources/NanoKontrolTwo/NanoKontrol.swift:96-97 | dispatching a stream in arrival order keeps the keys, leaves every entry no message addresses unchanged, and notifies at most once per message |
| LookupTable.DispatchAllKeepsLayout | Sources/NanoKontrolTwo/NanoKontrol.swift:96-97 | over any message stream the table changes only in values; every notification carries a copy of a table entry and that entry's original handler; the number of notifications is the number of messages that hit an entry with a handler |
| LookupTable.DispatchAllFinalValues | Sources/NanoKontrolTwo/NanoKontrol.swift:97 | after a stream, each entry holds the value of the last message sent to its key, or its original value if none was |
| LookupTable.DispatchAllUnmapped | Sources/NanoKontrolTwo/NanoKontrol.swift:97 | a stream of unmapped numbers leaves the table unchanged and notifies no one |
| LookupTable.SoloAndMarkerScenario | Sources/NanoKontrolTwo/NanoKontrol.swift:29-37 | on a new surface, (32,127) presses strip 1's solo button, (32,0) releases it, and (61,64) sets the previous-marker button to 64, with no notifications |
| Surface.NanoKontrol.constructor | Sources/NanoKontrolTwo/NanoKontrol.swift:87-91 | a new surface has the 8 standard strips, the default transport bank and no table yet |
| Surface.NanoKontrol.SetTracks | Sources/NanoKontrolTwo/NanoKontrol.swift:87 | the public strips can be replaced; a table already built is not affected |
| Surface.NanoKontrol.SetButtons | Sources/NanoKontrolTwo/NanoKontrol.swift:88 | the public transport bank can be replaced; a table already built is not affected |
| Surface.NanoKontrol.LookupTable | Sources/NanoKontrolTwo/NanoKontrol.swift:80-85 | on first use the table is built from the current buttons and strips; after that the memoised table is returned unchanged |
| Surface.NanoKontrol.Dispatch | Sources/NanoKontrolTwo/NanoKontrol.swift:97 | the table becomes one dispatch step applied to the (possibly just built) table; the handler calls are appended to the log; strips and buttons never change; the invariant is kept |

## Left out

- `percentage` (`Float(value) / 127.0`) is left out because it is floating-point arithmetic.
- Control names are an abstract `Label` (part and one-based strip ordinal, or transport
  button) rather than the interpolated display strings.
- The MIDI client is left out as external transport and threading plumbing. This covers
  its publisher, the `.controlChange` filter, delivery on the main run loop, the UUID
  client name, `[weak self]` and the `AnyCancellable`. The model takes messages that are
  already decoded, as plain integers `data1` and `data2`.
- Update handlers are abstract tokens. What a handler does when called is application
  code and is not modelled; only the call and its argument are recorded.
- Kontrols.SetValue: within a dictionary subscript mutation, Swift runs the observer on
  the value being modified before the value is stored back. Nothing in the package can
  observe this ordering, so the model applies the assignment and the notification as one step.
- Layout.TrackFor: does not model Swift's overflow trap for `number + 64` near the largest
  `Int`, because the surface only calls it with 0 to 7.
- Package.swift is not part of this model (a build manifest with no logic).
