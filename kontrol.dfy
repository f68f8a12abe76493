/**
 * One physical control of the nanoKONTROL2: a value type holding its kind, its
 * display label, its MIDI controller number, the last value received and an
 * optional update handler that every assignment to the value notifies.
 */
module Kontrols {
  import opened Wrappers

  datatype KontrolType = Slider | Knob | Button

  /** The five controls of one channel strip. */
  datatype StripPart = SliderPart | KnobPart | SoloPart | MutePart | RecordPart

  /** The eleven transport and navigation buttons. */
  datatype TransportName =
    | Rewind | Forward | Cycle | PreviousTrack | NextTrack | Stop | Play
    | Record | SetMarker | PreviousMarker | NextMarker

  /**
   * The display name of a control, kept abstract: a strip control is named by
   * its part and its one-based strip ordinal, a transport button by itself.
   */
  datatype Label = StripLabel(part: StripPart, ordinal: int) | TransportLabel(button: TransportName)

  /** The identity of a stored update handler (a closure the application supplies). */
  datatype Handler = Handler(id: nat)

  datatype Kontrol = Kontrol(
    kind: KontrolType,
    name: Label,
    midiIdentifier: int,
    value: int,
    updateHandler: Option<Handler>)

  /** One invocation of an update handler, with the Kontrol it was passed. */
  datatype Notification = Notification(handler: Handler, snapshot: Kontrol)

  /** The new Kontrol after an assignment to `value`, and the handler calls it made. */
  datatype Assignment = Assignment(kontrol: Kontrol, fired: seq<Notification>)

  /** The memberwise initialiser: value defaults to 0 and there is no handler. */
  function MakeKontrol(kind: KontrolType, name: Label, midiIdentifier: int): (k: Kontrol)
    ensures k.kind == kind && k.name == name && k.midiIdentifier == midiIdentifier
    ensures k.value == 0 && k.updateHandler == None
  {
    Kontrol(kind, name, midiIdentifier, 0, None)
  }

  /**
   * Assigning `value`: the integer is stored as given (no clamping), and the
   * didSet observer then calls the handler, if there is one, with the updated copy.
   */
  function SetValue(k: Kontrol, v: int): (r: Assignment)
    ensures r.kontrol.value == v
    ensures r.kontrol.(value := k.value) == k
    ensures |r.fired| == (if k.updateHandler.Some? then 1 else 0)
    ensures forall n :: n in r.fired ==> k.updateHandler == Some(n.handler) && n.snapshot == r.kontrol
  {
    var updated := k.(value := v);
    if k.updateHandler.None? then Assignment(updated, [])
    else Assignment(updated, [Notification(k.updateHandler.value, updated)])
  }

  /** A button reads as pressed when its value is 127; sliders and knobs never do. */
  predicate IsPressed(k: Kontrol)
    ensures IsPressed(k) ==> k.kind == Button
    ensures k.kind == Button ==> (IsPressed(k) <==> k.value == 127)
  {
    if k.kind != Button then false else k.value == 127
  }

  /** A button reads as released when its value is 0; sliders and knobs never do. */
  predicate IsReleased(k: Kontrol)
    ensures IsReleased(k) ==> k.kind == Button
    ensures k.kind == Button ==> (IsReleased(k) <==> k.value == 0)
  {
    if k.kind != Button then false else k.value == 0
  }

  /** Pressed and released are exclusive, and both are false for sliders and knobs. */
  lemma ButtonStates(k: Kontrol)
    ensures !(IsPressed(k) && IsReleased(k))
    ensures k.kind != Button ==> !IsPressed(k) && !IsReleased(k)
  {
  }

  /** The derived states always follow the last assignment. */
  lemma StatesAfterAssignment(k: Kontrol, v: int)
    ensures IsPressed(SetValue(k, v).kontrol) <==> k.kind == Button && v == 127
    ensures IsReleased(SetValue(k, v).kontrol) <==> k.kind == Button && v == 0
  {
  }

  /** Two assignments in a row leave the second value and notify once per assignment. */
  lemma AssignTwice(k: Kontrol, v: int, w: int)
    ensures var a := SetValue(k, v); var b := SetValue(a.kontrol, w);
            b.kontrol == SetValue(k, w).kontrol &&
            |a.fired + b.fired| == (if k.updateHandler.Some? then 2 else 0)
  {
  }
}
