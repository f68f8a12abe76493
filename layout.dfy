/**
 * The fixed layout of the surface: eight channel strips whose controller
 * numbers follow an arithmetic scheme, and eleven transport buttons with
 * hand-assigned numbers.
 */
module Layout {
  import opened Wrappers
  import opened Kontrols

  /** One channel strip. */
  datatype Track = Track(
    slider: Kontrol,
    knob: Kontrol,
    soloButton: Kontrol,
    muteButton: Kontrol,
    recordButton: Kontrol)

  /** The strip's controls, in the order the lookup table registers them. */
  function AllKontrols(t: Track): (ks: seq<Kontrol>)
    ensures |ks| == 5
    ensures ks[0] == t.slider && ks[1] == t.knob
    ensures ks[2] == t.soloButton && ks[3] == t.muteButton && ks[4] == t.recordButton
  {
    [t.slider, t.knob, t.soloButton, t.muteButton, t.recordButton]
  }

  /**
   * The strip for a zero-based track number: slider, knob, solo, mute and record on
   * number, number+16, number+32, number+48 and number+64, labelled with number+1,
   * each with value 0 and no handler.
   */
  function TrackFor(number: int): (t: Track)
    ensures Ids(AllKontrols(t)) == [number, number + 16, number + 32, number + 48, number + 64]
    ensures Kinds(AllKontrols(t)) == [Slider, Knob, Button, Button, Button]
    ensures t.slider.name == StripLabel(SliderPart, number + 1) && t.knob.name == StripLabel(KnobPart, number + 1)
    ensures t.soloButton.name == StripLabel(SoloPart, number + 1)
    ensures t.muteButton.name == StripLabel(MutePart, number + 1)
    ensures t.recordButton.name == StripLabel(RecordPart, number + 1)
    ensures Pristine(AllKontrols(t))
  {
    Track(
      MakeKontrol(Slider, StripLabel(SliderPart, number + 1), number),
      MakeKontrol(Knob, StripLabel(KnobPart, number + 1), number + 16),
      MakeKontrol(Button, StripLabel(SoloPart, number + 1), number + 32),
      MakeKontrol(Button, StripLabel(MutePart, number + 1), number + 48),
      MakeKontrol(Button, StripLabel(RecordPart, number + 1), number + 64))
  }

  /** The controller numbers of a sequence of controls. */
  function Ids(ks: seq<Kontrol>): seq<int>
  {
    seq(|ks|, i requires 0 <= i < |ks| => ks[i].midiIdentifier)
  }

  function Kinds(ks: seq<Kontrol>): seq<KontrolType>
  {
    seq(|ks|, i requires 0 <= i < |ks| => ks[i].kind)
  }

  /** Every control is as the initialiser left it: value 0, no handler. */
  predicate Pristine(ks: seq<Kontrol>)
  {
    forall i :: 0 <= i < |ks| ==> ks[i].value == 0 && ks[i].updateHandler == None
  }

  predicate Distinct(s: seq<int>)
  {
    forall i, j :: 0 <= i < j < |s| ==> s[i] != s[j]
  }

  /** The transport buttons' controller numbers, in registration order. */
  const TransportIds: seq<int> := [43, 44, 46, 58, 59, 42, 41, 45, 60, 61, 62]

  datatype Buttons = Buttons(
    rewind: Kontrol,
    forward: Kontrol,
    cycle: Kontrol,
    trackPrev: Kontrol,
    trackNext: Kontrol,
    stop: Kontrol,
    play: Kontrol,
    record: Kontrol,
    markerSet: Kontrol,
    markerPrev: Kontrol,
    markerNext: Kontrol)

  /** The default transport bank: eleven buttons on the hand-assigned numbers, value 0, no handler. */
  function DefaultButtons(): (b: Buttons)
    ensures Ids(AllButtons(b)) == TransportIds
    ensures Kinds(AllButtons(b)) == seq(11, _ => Button)
    ensures Pristine(AllButtons(b))
    ensures b.markerPrev.name == TransportLabel(PreviousMarker)
  {
    Buttons(
      MakeKontrol(Button, TransportLabel(Rewind), 43),
      MakeKontrol(Button, TransportLabel(Forward), 44),
      MakeKontrol(Button, TransportLabel(Cycle), 46),
      MakeKontrol(Button, TransportLabel(PreviousTrack), 58),
      MakeKontrol(Button, TransportLabel(NextTrack), 59),
      MakeKontrol(Button, TransportLabel(Stop), 42),
      MakeKontrol(Button, TransportLabel(Play), 41),
      MakeKontrol(Button, TransportLabel(Record), 45),
      MakeKontrol(Button, TransportLabel(SetMarker), 60),
      MakeKontrol(Button, TransportLabel(PreviousMarker), 61),
      MakeKontrol(Button, TransportLabel(NextMarker), 62))
  }

  /** The bank's buttons, in the order the lookup table registers them. */
  function AllButtons(b: Buttons): (bs: seq<Kontrol>)
    ensures |bs| == 11
    ensures bs[0] == b.rewind && bs[1] == b.forward && bs[2] == b.cycle
    ensures bs[3] == b.trackPrev && bs[4] == b.trackNext && bs[5] == b.stop && bs[6] == b.play
    ensures bs[7] == b.record && bs[8] == b.markerSet && bs[9] == b.markerPrev && bs[10] == b.markerNext
  {
    [b.rewind, b.forward, b.cycle, b.trackPrev, b.trackNext, b.stop, b.play,
     b.record, b.markerSet, b.markerPrev, b.markerNext]
  }

  /** The eleven hand-assigned transport numbers are pairwise distinct. */
  lemma TransportIdsDistinct()
    ensures Distinct(TransportIds)
  {
  }

  /** The eight strips a new surface owns, for track numbers 0 to 7 in order. */
  function StandardTracks(): (ts: seq<Track>)
    ensures |ts| == 8 && forall t :: 0 <= t < 8 ==> ts[t] == TrackFor(t)
  {
    seq(8, t => TrackFor(t))
  }

  /** The controls of the strips, strip after strip, each strip in AllKontrols order. */
  function Flatten(ts: seq<Track>): (ks: seq<Kontrol>)
    ensures |ks| == 5 * |ts|
  {
    if ts == [] then [] else Flatten(ts[..|ts| - 1]) + AllKontrols(ts[|ts| - 1])
  }

  /** Control p of strip t sits at position 5t + p of the flattened strips. */
  lemma {:induction false} FlattenAt(ts: seq<Track>, t: int, p: int)
    requires 0 <= t < |ts| && 0 <= p < 5
    ensures Flatten(ts)[5 * t + p] == AllKontrols(ts[t])[p]
  {
    var n := |ts| - 1;
    if t < n {
      FlattenAt(ts[..n], t, p);
    }
  }

  /** The order in which the lookup table registers controls: the buttons, then each strip. */
  function RegistrationOrder(b: Buttons, ts: seq<Track>): (order: seq<Kontrol>)
    ensures |order| == 11 + 5 * |ts|
    ensures order[..11] == AllButtons(b) && order[11..] == Flatten(ts)
  {
    AllButtons(b) + Flatten(ts)
  }

  function StandardOrder(): seq<Kontrol>
  {
    RegistrationOrder(DefaultButtons(), StandardTracks())
  }

  /** Replacing strip t changes exactly its five registration slots, 11 + 5t to 11 + 5t + 4. */
  lemma ReplaceTrackOrder(b: Buttons, ts: seq<Track>, t: int, tr: Track)
    requires 0 <= t < |ts|
    ensures var order, order' := RegistrationOrder(b, ts), RegistrationOrder(b, ts[t := tr]);
            |order'| == |order| == 11 + 5 * |ts| &&
            (forall p :: 0 <= p < 5 ==> order'[11 + 5 * t + p] == AllKontrols(tr)[p]) &&
            (forall k :: 0 <= k < |order| && !(11 + 5 * t <= k < 11 + 5 * t + 5) ==> order'[k] == order[k])
  {
    var ts' := ts[t := tr];
    forall p | 0 <= p < 5
      ensures Flatten(ts')[5 * t + p] == AllKontrols(tr)[p]
    {
      FlattenAt(ts', t, p);
    }
    forall k | 0 <= k < 5 * |ts| && !(5 * t <= k < 5 * t + 5)
      ensures Flatten(ts')[k] == Flatten(ts)[k]
    {
      FlattenAt(ts', k / 5, k % 5);
      FlattenAt(ts, k / 5, k % 5);
    }
  }

  /** The first eleven registered controls are the transport buttons. */
  lemma StandardButtonAt(i: int)
    requires 0 <= i < 11
    ensures |StandardOrder()| == 51
    ensures StandardOrder()[i] == AllButtons(DefaultButtons())[i]
    ensures StandardOrder()[i].midiIdentifier == TransportIds[i]
    ensures StandardOrder()[i].kind == Button
    ensures StandardOrder()[i].value == 0 && StandardOrder()[i].updateHandler == None
  {
  }

  /** Control p of strip t is registered at position 11 + 5t + p and listens on t + 16p. */
  lemma StandardStripAt(t: int, p: int)
    requires 0 <= t < 8 && 0 <= p < 5
    ensures |StandardOrder()| == 51
    ensures StandardOrder()[11 + 5 * t + p] == AllKontrols(TrackFor(t))[p]
    ensures StandardOrder()[11 + 5 * t + p].midiIdentifier == t + 16 * p
    ensures StandardOrder()[11 + 5 * t + p].kind == (if p == 0 then Slider else if p == 1 then Knob else Button)
    ensures StandardOrder()[11 + 5 * t + p].value == 0
    ensures StandardOrder()[11 + 5 * t + p].updateHandler == None
  {
    FlattenAt(StandardTracks(), t, p);
    assert Ids(AllKontrols(TrackFor(t)))[p] == [t, t + 16, t + 32, t + 48, t + 64][p];
    assert Kinds(AllKontrols(TrackFor(t)))[p] == [Slider, Knob, Button, Button, Button][p];
  }

  /** Every transport number is 41..46 or 58..62: strip slot 9..14 of the solo and mute rows. */
  lemma TransportIdRange(i: int)
    requires 0 <= i < 11
    ensures 41 <= TransportIds[i] <= 46 || 58 <= TransportIds[i] <= 62
  {
  }

  /** The numbers a surface listens on: the transport numbers and t + 16p for t < 8, p < 5. */
  predicate IsSurfaceId(x: int)
  {
    x in TransportIds || (0 <= x < 80 && x % 16 < 8)
  }

  /** The 51 registered controls of a new surface listen on 51 distinct numbers. */
  lemma StandardIdsDistinct()
    ensures |StandardOrder()| == 51
    ensures Distinct(Ids(StandardOrder()))
  {
    StandardButtonAt(0);
    forall i, j | 0 <= i < j < 51
      ensures StandardOrder()[i].midiIdentifier != StandardOrder()[j].midiIdentifier
    {
      StandardIdsDiffer(i, j);
    }
  }

  /** Two different registration slots of a new surface listen on different numbers. */
  lemma StandardIdsDiffer(i: int, j: int)
    requires 0 <= i < j < 51
    ensures |StandardOrder()| == 51
    ensures StandardOrder()[i].midiIdentifier != StandardOrder()[j].midiIdentifier
  {
    StandardButtonAt(0);
    if j < 11 {
      TransportIdsDistinct();
      StandardButtonAt(i);
      StandardButtonAt(j);
    } else {
      StandardStripAt((j - 11) / 5, (j - 11) % 5);
      if i < 11 {
        StandardButtonAt(i);
        TransportIdRange(i);
      } else {
        StandardStripAt((i - 11) / 5, (i - 11) % 5);
      }
    }
  }

  /** Every number a new surface registers is a surface number. */
  lemma StandardIdsAreSurfaceIds(i: int)
    requires 0 <= i < 51
    ensures |StandardOrder()| == 51
    ensures IsSurfaceId(StandardOrder()[i].midiIdentifier)
  {
    StandardButtonAt(0);
    if i < 11 {
      StandardButtonAt(i);
    } else {
      StandardStripAt((i - 11) / 5, (i - 11) % 5);
    }
  }

  /** Every surface number is registered by some control of a new surface. */
  lemma SurfaceIdsAreStandardIds(x: int)
    requires IsSurfaceId(x)
    ensures |StandardOrder()| == 51
    ensures exists i :: 0 <= i < 51 && StandardOrder()[i].midiIdentifier == x
  {
    StandardButtonAt(0);
    if x in TransportIds {
      var i :| 0 <= i < 11 && TransportIds[i] == x;
      StandardButtonAt(i);
    } else {
      var t, p := x % 16, x / 16;
      StandardStripAt(t, p);
    }
  }

  /** A new surface registers a control on exactly the surface numbers. */
  lemma StandardIdsAre(x: int)
    ensures x in Ids(StandardOrder()) <==> IsSurfaceId(x)
  {
    var order := StandardOrder();
    StandardButtonAt(0);
    if x in Ids(order) {
      var i :| 0 <= i < 51 && Ids(order)[i] == x;
      StandardIdsAreSurfaceIds(i);
    }
    if IsSurfaceId(x) {
      SurfaceIdsAreStandardIds(x);
      var i :| 0 <= i < 51 && order[i].midiIdentifier == x;
      assert Ids(order)[i] == x;
    }
  }
}
