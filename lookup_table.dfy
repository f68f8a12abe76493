/**
 * The lookup table from MIDI controller number to Kontrol, and the dispatch
 * step that routes one decoded Control Change message through it. The table
 * holds copies of the layout's Kontrols (they are value types), so a dispatch
 * changes only the table's copy.
 */
module LookupTable {
  import opened Wrappers
  import opened Kontrols
  import opened Layout

  type Table = map<int, Kontrol>

  /**
   * Registering controls one after another: each is stored under its number,
   * overwriting, so a table that kept every entry under its own number still does.
   */
  function Register(m: Table, ks: seq<Kontrol>): (r: Table)
    ensures Coherent(m) ==> Coherent(r)
  {
    if ks == [] then m
    else
      var n := |ks| - 1;
      Register(m, ks[..n])[ks[n].midiIdentifier := ks[n]]
  }

  /**
   * The table a surface builds: the buttons first, then the strips in index order.
   * It has a key for exactly the registered numbers, each entry under its own number.
   */
  function BuildTable(buttons: Buttons, tracks: seq<Track>): (t: Table)
    ensures forall x :: x in t <==> x in Ids(RegistrationOrder(buttons, tracks))
    ensures Coherent(t)
  {
    RegisterKeys(map[], RegistrationOrder(buttons, tracks));
    Register(map[], RegistrationOrder(buttons, tracks))
  }

  /** The table of a surface whose layout was not changed before first use. */
  function StandardTable(): Table
  {
    BuildTable(DefaultButtons(), StandardTracks())
  }

  /** Every entry is stored under its own controller number. */
  predicate Coherent(t: Table)
  {
    forall x :: x in t ==> t[x].midiIdentifier == x
  }

  /** The keys after registering are the old keys and the registered numbers. */
  lemma {:induction false} RegisterKeys(m: Table, ks: seq<Kontrol>)
    ensures forall x :: x in Register(m, ks) <==> x in m || x in Ids(ks)
  {
    if ks != [] {
      var n := |ks| - 1;
      RegisterKeys(m, ks[..n]);
      assert Ids(ks) == Ids(ks[..n]) + [ks[n].midiIdentifier];
    }
  }

  /** A number nobody registers keeps whatever entry it had. */
  lemma {:induction false} RegisterUntouched(m: Table, ks: seq<Kontrol>, x: int)
    requires x !in Ids(ks)
    ensures x in Register(m, ks) <==> x in m
    ensures x in m ==> Register(m, ks)[x] == m[x]
  {
    if ks != [] {
      var n := |ks| - 1;
      assert Ids(ks) == Ids(ks[..n]) + [ks[n].midiIdentifier];
      RegisterUntouched(m, ks[..n], x);
    }
  }

  /** On a shared number the control registered last wins. */
  lemma {:induction false} RegisterLastWins(m: Table, ks: seq<Kontrol>, j: int)
    requires 0 <= j < |ks|
    requires forall j' :: j < j' < |ks| ==> ks[j'].midiIdentifier != ks[j].midiIdentifier
    ensures ks[j].midiIdentifier in Register(m, ks)
    ensures Register(m, ks)[ks[j].midiIdentifier] == ks[j]
  {
    var n := |ks| - 1;
    if j < n {
      RegisterLastWins(m, ks[..n], j);
    }
  }

  /** A registered number maps to one of the registered controls that carry it. */
  lemma {:induction false} RegisterFrom(m: Table, ks: seq<Kontrol>, x: int)
    requires x in Ids(ks)
    ensures x in Register(m, ks)
    ensures Register(m, ks)[x] in ks && Register(m, ks)[x].midiIdentifier == x
  {
    var n := |ks| - 1;
    if ks[n].midiIdentifier != x {
      assert Ids(ks) == Ids(ks[..n]) + [ks[n].midiIdentifier];
      RegisterFrom(m, ks[..n], x);
    }
  }

  /** Registering two runs of controls is registering one run, then the other. */
  lemma {:induction false} RegisterAppend(m: Table, a: seq<Kontrol>, c: seq<Kontrol>)
    ensures Register(m, a + c) == Register(Register(m, a), c)
  {
    if c == [] {
      assert a + c == a;
    } else {
      var n := |c| - 1;
      assert (a + c)[..|a + c| - 1] == a + c[..n];
      RegisterAppend(m, a, c[..n]);
    }
  }

  /** Controls on pairwise distinct numbers give a table with one key per control. */
  lemma {:induction false} RegisterDistinctSize(ks: seq<Kontrol>)
    requires Distinct(Ids(ks))
    ensures |Register(map[], ks)| == |ks|
  {
    if ks != [] {
      var n := |ks| - 1;
      assert Ids(ks[..n]) == Ids(ks)[..n];
      RegisterDistinctSize(ks[..n]);
      RegisterKeys(map[], ks[..n]);
      forall i | 0 <= i < n
        ensures Ids(ks[..n])[i] != ks[n].midiIdentifier
      {
        assert Ids(ks)[i] != Ids(ks)[n];
      }
    }
  }

  /** With pairwise distinct numbers every registered control is found under its number. */
  lemma LastWinsWhenDistinct(ks: seq<Kontrol>, j: int)
    requires Distinct(Ids(ks)) && 0 <= j < |ks|
    ensures ks[j].midiIdentifier in Register(map[], ks)
    ensures Register(map[], ks)[ks[j].midiIdentifier] == ks[j]
  {
    forall j' | j < j' < |ks|
      ensures ks[j'].midiIdentifier != ks[j].midiIdentifier
    {
      assert Ids(ks)[j] != Ids(ks)[j'];
    }
    RegisterLastWins(map[], ks, j);
  }

  /**
   * A built table has a key for every button and strip number; a number some strip
   * uses maps to a strip control, overriding any button on it; a number only
   * buttons use maps to one of those buttons.
   */
  lemma BuildTableStructure(buttons: Buttons, tracks: seq<Track>, x: int)
    ensures Coherent(BuildTable(buttons, tracks))
    ensures x in BuildTable(buttons, tracks) <==> x in Ids(AllButtons(buttons)) || x in Ids(Flatten(tracks))
    ensures x in Ids(Flatten(tracks)) ==> BuildTable(buttons, tracks)[x] in Flatten(tracks)
    ensures x !in Ids(Flatten(tracks)) && x in Ids(AllButtons(buttons)) ==>
              BuildTable(buttons, tracks)[x] in AllButtons(buttons)
  {
    var bs, fs := AllButtons(buttons), Flatten(tracks);
    RegisterKeys(map[], bs);
    RegisterKeys(Register(map[], bs), fs);
    RegisterAppend(map[], bs, fs);
    if x in Ids(fs) {
      RegisterFrom(Register(map[], bs), fs, x);
    } else if x in Ids(bs) {
      RegisterUntouched(Register(map[], bs), fs, x);
      RegisterFrom(map[], bs, x);
    }
  }

  /**
   * A new surface's table has exactly 51 keys, the surface numbers; each maps to
   * the control registered on it, with value 0 and no handler.
   */
  lemma StandardTableShape()
    ensures |StandardOrder()| == 51
    ensures |StandardTable()| == 51
    ensures forall x :: x in StandardTable() <==> IsSurfaceId(x)
    ensures Coherent(StandardTable())
    ensures forall i :: 0 <= i < 51 ==>
              StandardOrder()[i].midiIdentifier in StandardTable() &&
              StandardTable()[StandardOrder()[i].midiIdentifier] == StandardOrder()[i]
    ensures forall x :: x in StandardTable() ==> StandardTable()[x].value == 0 && StandardTable()[x].updateHandler == None
  {
    var order := StandardOrder();
    StandardIdsDistinct();
    RegisterDistinctSize(order);
    forall x
      ensures x in StandardTable() <==> IsSurfaceId(x)
    {
      StandardIdsAre(x);
    }
    forall i | 0 <= i < 51
      ensures order[i].midiIdentifier in StandardTable() && StandardTable()[order[i].midiIdentifier] == order[i]
    {
      LastWinsWhenDistinct(order, i);
    }
    forall x | x in StandardTable()
      ensures StandardTable()[x].value == 0 && StandardTable()[x].updateHandler == None
    {
      StandardEntryPristine(x);
    }
  }

  /** Every entry of a new surface's table has value 0 and no handler. */
  lemma StandardEntryPristine(x: int)
    requires x in StandardTable()
    ensures StandardTable()[x].value == 0 && StandardTable()[x].updateHandler == None
  {
    var order := StandardOrder();
    StandardButtonAt(0);
    StandardIdsDistinct();
    var i :| 0 <= i < 51 && Ids(order)[i] == x;
    LastWinsWhenDistinct(order, i);
    if i < 11 {
      StandardButtonAt(i);
    } else {
      StandardStripAt((i - 11) / 5, (i - 11) % 5);
    }
  }

  /**
   * A strip replaced before first use, on the same numbers, is what the table
   * holds: its control p is the entry under t + 16p, handler included.
   */
  lemma ReplacedStripReachesTable(t: int, p: int, tr: Track)
    requires 0 <= t < 8 && 0 <= p < 5
    requires Ids(AllKontrols(tr)) == Ids(AllKontrols(TrackFor(t)))
    ensures t + 16 * p in BuildTable(DefaultButtons(), StandardTracks()[t := tr])
    ensures BuildTable(DefaultButtons(), StandardTracks()[t := tr])[t + 16 * p] == AllKontrols(tr)[p]
  {
    var order := RegistrationOrder(DefaultButtons(), StandardTracks()[t := tr]);
    var j := 11 + 5 * t + p;
    ReplaceTrackOrder(DefaultButtons(), StandardTracks(), t, tr);
    StandardStripAt(t, p);
    assert order[j] == AllKontrols(tr)[p];
    assert order[j].midiIdentifier == Ids(AllKontrols(tr))[p] == t + 16 * p;
    forall j' | j < j' < |order|
      ensures order[j'].midiIdentifier != order[j].midiIdentifier
    {
      if j' < 11 + 5 * t + 5 {
        var p' := j' - 11 - 5 * t;
        StandardStripAt(t, p');
        assert order[j'] == AllKontrols(tr)[p'];
        assert order[j'].midiIdentifier == Ids(AllKontrols(tr))[p'];
      } else {
        StandardIdsDiffer(j, j');
      }
    }
    RegisterLastWins(map[], order, j);
  }

  /** The imperative builder: fills a dictionary from the buttons, then from each strip. */
  method BuildLookupTable(buttons: Buttons, tracks: seq<Track>) returns (result: Table)
    ensures result == BuildTable(buttons, tracks)
  {
    result := map[];
    var bs := AllButtons(buttons);
    for i := 0 to |bs|
      invariant result == Register(map[], bs[..i])
    {
      assert bs[..i + 1][..i] == bs[..i];
      result := result[bs[i].midiIdentifier := bs[i]];
    }
    assert bs[..|bs|] == bs;
    assert bs + Flatten(tracks[..0]) == bs;
    for t := 0 to |tracks|
      invariant result == Register(map[], bs + Flatten(tracks[..t]))
    {
      var ks := AllKontrols(tracks[t]);
      var done := bs + Flatten(tracks[..t]);
      assert done + ks[..0] == done;
      for j := 0 to |ks|
        invariant result == Register(map[], done + ks[..j])
      {
        assert (done + ks[..j + 1])[..|done| + j] == done + ks[..j];
        result := result[ks[j].midiIdentifier := ks[j]];
      }
      assert tracks[..t + 1][..t] == tracks[..t];
      assert ks[..|ks|] == ks;
      assert bs + Flatten(tracks[..t + 1]) == done + ks;
    }
    assert tracks[..|tracks|] == tracks;
  }

  /** A decoded Control Change message: controller number and value. */
  datatype Message = Message(data1: int, data2: int)

  /** The table after one dispatch, and the handler calls it made. */
  datatype Dispatched = Dispatched(table: Table, fired: seq<Notification>)

  /**
   * One dispatch: a mapped number has its entry's value assigned (notifying that
   * entry's handler); an unmapped number changes nothing.
   */
  function DispatchStep(t: Table, data1: int, data2: int): (r: Dispatched)
    ensures r.table.Keys == t.Keys
    ensures data1 !in t ==> r.table == t && r.fired == []
    ensures data1 in t ==> r.table[data1].value == data2 && r.table[data1].(value := t[data1].value) == t[data1]
    ensures forall x :: x in t && x != data1 ==> r.table[x] == t[x]
    ensures |r.fired| == (if data1 in t && t[data1].updateHandler.Some? then 1 else 0)
    ensures forall n :: n in r.fired ==>
              data1 in t && t[data1].updateHandler == Some(n.handler) && n.snapshot == r.table[data1]
  {
    if data1 in t then
      var a := SetValue(t[data1], data2);
      Dispatched(t[data1 := a.kontrol], a.fired)
    else
      Dispatched(t, [])
  }

  /**
   * The messages of a stream dispatched one after another, in arrival order: the
   * keys stay the same, an entry no message addresses is unchanged, and there is at
   * most one notification per message.
   */
  function DispatchAll(t: Table, msgs: seq<Message>): (r: Dispatched)
    ensures r.table.Keys == t.Keys
    ensures forall x :: x in t && (forall i :: 0 <= i < |msgs| ==> msgs[i].data1 != x) ==> r.table[x] == t[x]
    ensures |r.fired| <= |msgs|
  {
    if msgs == [] then Dispatched(t, [])
    else
      var r := DispatchAll(t, msgs[..|msgs| - 1]);
      var m := msgs[|msgs| - 1];
      var s := DispatchStep(r.table, m.data1, m.data2);
      Dispatched(s.table, r.fired + s.fired)
  }

  /** Two tables with the same keys whose entries differ at most in their values. */
  predicate SameButValues(t: Table, ref: Table)
  {
    t.Keys == ref.Keys && forall x :: x in t ==> t[x].(value := ref[x].value) == ref[x]
  }

  /** A notification that carries a copy of ref's entry for its number and that entry's handler. */
  predicate FromTable(n: Notification, ref: Table)
  {
    var x := n.snapshot.midiIdentifier;
    x in ref && n.snapshot.(value := ref[x].value) == ref[x] && ref[x].updateHandler == Some(n.handler)
  }

  /** The number of messages of a stream that hit an entry of t that has a handler. */
  function HandledCount(t: Table, msgs: seq<Message>): nat
  {
    if msgs == [] then 0
    else
      var m := msgs[|msgs| - 1];
      HandledCount(t, msgs[..|msgs| - 1]) + if m.data1 in t && t[m.data1].updateHandler.Some? then 1 else 0
  }

  /**
   * Dispatching any stream into a coherent table changes only values; every
   * notification comes from a handler the table held from the start; and each
   * message that hits an entry with a handler notifies exactly once.
   */
  lemma {:induction false} DispatchAllKeepsLayout(t: Table, msgs: seq<Message>)
    requires Coherent(t)
    ensures SameButValues(DispatchAll(t, msgs).table, t)
    ensures forall n :: n in DispatchAll(t, msgs).fired ==> FromTable(n, t)
    ensures |DispatchAll(t, msgs).fired| == HandledCount(t, msgs)
  {
    if msgs != [] {
      var n := |msgs| - 1;
      DispatchAllKeepsLayout(t, msgs[..n]);
      var r := DispatchAll(t, msgs[..n]);
      var s := DispatchStep(r.table, msgs[n].data1, msgs[n].data2);
      forall note | note in s.fired
        ensures FromTable(note, t)
      {
        assert r.table[msgs[n].data1].(value := t[msgs[n].data1].value) == t[msgs[n].data1];
      }
      assert msgs[n].data1 in r.table ==>
        r.table[msgs[n].data1].updateHandler == t[msgs[n].data1].updateHandler
      by {
        if msgs[n].data1 in r.table {
          assert r.table[msgs[n].data1].(value := t[msgs[n].data1].value) == t[msgs[n].data1];
        }
      }
    }
  }

  /** The value the last message addressed to x carries, or v when no message addresses x. */
  function LastValueFor(msgs: seq<Message>, x: int, v: int): int
  {
    if msgs == [] then v
    else if msgs[|msgs| - 1].data1 == x then msgs[|msgs| - 1].data2
    else LastValueFor(msgs[..|msgs| - 1], x, v)
  }

  /** After a stream, each entry holds the value of the last message addressed to it, or its old value. */
  lemma {:induction false} DispatchAllFinalValues(t: Table, msgs: seq<Message>, x: int)
    requires x in t
    ensures DispatchAll(t, msgs).table[x].value == LastValueFor(msgs, x, t[x].value)
  {
    if msgs != [] {
      DispatchAllFinalValues(t, msgs[..|msgs| - 1], x);
    }
  }

  /** A stream of messages none of which is mapped leaves the table as it was and notifies no one. */
  lemma {:induction false} DispatchAllUnmapped(t: Table, msgs: seq<Message>)
    requires forall i :: 0 <= i < |msgs| ==> msgs[i].data1 !in t
    ensures DispatchAll(t, msgs) == Dispatched(t, [])
  {
    if msgs != [] {
      DispatchAllUnmapped(t, msgs[..|msgs| - 1]);
    }
  }

  /**
   * On a new surface: (32, 127) presses strip 1's solo button, (32, 0) releases it,
   * and (61, 64) sets the previous-marker button to 64; no handler is called.
   */
  lemma SoloAndMarkerScenario()
    ensures var r1 := DispatchStep(StandardTable(), 32, 127);
            var r2 := DispatchStep(r1.table, 32, 0);
            var r3 := DispatchStep(r2.table, 61, 64);
            && 32 in StandardTable() && 61 in StandardTable()
            && r1.table[32].name == StripLabel(SoloPart, 1)
            && IsPressed(r1.table[32])
            && IsReleased(r2.table[32])
            && r3.table[61].name == TransportLabel(PreviousMarker)
            && r3.table[61].value == 64
            && r3.table[32] == r2.table[32]
            && r1.fired + r2.fired + r3.fired == []
  {
    StandardTableShape();
    StandardStripAt(0, 2);
    StandardButtonAt(9);
  }
}
