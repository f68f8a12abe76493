/**
 * The surface object: it owns the eight strips and the transport bank (both
 * public and writable), builds its lookup table lazily on first use and keeps
 * it from then on, and routes each decoded Control Change message through it.
 */
module Surface {
  import opened Wrappers
  import opened Kontrols
  import opened Layout
  import opened LookupTable

  class NanoKontrol {
    var tracks: seq<Track>
    var buttons: Buttons
    /** None until first use; afterwards the memoised table. */
    var lookupTable: Option<Table>
    /** The controls the table was built from, in registration order ([] before first use). */
    ghost var registered: seq<Kontrol>
    /** Every update-handler call made through dispatch, oldest first. */
    ghost var notifications: seq<Notification>

    /**
     * Once built, the table differs from what was registered only in values, and
     * every handler call came from a handler some control had when the table was built.
     */
    ghost predicate Valid()
      reads this
    {
      && (lookupTable.None? ==> registered == [] && notifications == [])
      && (lookupTable.Some? ==> SameButValues(lookupTable.value, Register(map[], registered)))
      && (forall n :: n in notifications ==> FromTable(n, Register(map[], registered)))
    }

    constructor ()
      ensures Valid()
      ensures tracks == StandardTracks() && buttons == DefaultButtons()
      ensures lookupTable == None && notifications == []
    {
      tracks := StandardTracks();
      buttons := DefaultButtons();
      lookupTable := None;
      registered := [];
      notifications := [];
    }

    /** Replacing the strips (the public `tracks` setter); a table already built keeps its copies. */
    method SetTracks(ts: seq<Track>)
      requires Valid()
      modifies this`tracks
      ensures Valid() && tracks == ts
    {
      tracks := ts;
    }

    /** Replacing the transport bank (the public `buttons` setter). */
    method SetButtons(b: Buttons)
      requires Valid()
      modifies this`buttons
      ensures Valid() && buttons == b
    {
      buttons := b;
    }

    /** The lazily built table: built from the current layout on first use, memoised afterwards. */
    method LookupTable() returns (table: Table)
      requires Valid()
      modifies this`lookupTable, this`registered
      ensures Valid()
      ensures lookupTable == Some(table)
      ensures old(lookupTable).Some? ==> table == old(lookupTable).value && registered == old(registered)
      ensures old(lookupTable).None? ==>
                table == BuildTable(buttons, tracks) && registered == RegistrationOrder(buttons, tracks)
    {
      if lookupTable.Some? {
        return lookupTable.value;
      }
      table := BuildLookupTable(buttons, tracks);
      lookupTable := Some(table);
      registered := RegistrationOrder(buttons, tracks);
    }

    /**
     * The dispatch step: the table entry for data1, if any, gets value data2 and
     * notifies its handler; the strips and the transport bank are never changed.
     */
    method Dispatch(data1: int, data2: int)
      requires Valid()
      modifies this`lookupTable, this`registered, this`notifications
      ensures Valid()
      ensures old(lookupTable).Some? ==> registered == old(registered)
      ensures old(lookupTable).None? ==> registered == RegistrationOrder(buttons, tracks)
      ensures var before := if old(lookupTable).Some? then old(lookupTable).value else BuildTable(buttons, tracks);
              var step := DispatchStep(before, data1, data2);
              lookupTable == Some(step.table) && notifications == old(notifications) + step.fired
    {
      var table := LookupTable();
      if data1 in table {
        var update := SetValue(table[data1], data2);
        lookupTable := Some(table[data1 := update.kontrol]);
        notifications := notifications + update.fired;
        ghost var ref := Register(map[], registered);
        forall n | n in update.fired
          ensures FromTable(n, ref)
        {
          assert table[data1].(value := ref[data1].value) == ref[data1];
        }
      }
    }
  }

  /**
   * A handler set on a strip before first use is called once, with the table's
   * updated copy; the strip's own control keeps value 0.
   */
  method HandlerSetBeforeFirstUse()
  {
    var surface := new NanoKontrol();
    var ts := surface.tracks;
    var slider := ts[0].slider.(updateHandler := Some(Handler(1)));
    var strip := ts[0].(slider := slider);
    surface.SetTracks(ts[0 := strip]);
    surface.Dispatch(0, 20);
    ReplacedStripReachesTable(0, 0, strip);
    ghost var fired := DispatchStep(BuildTable(DefaultButtons(), StandardTracks()[0 := strip]), 0, 20).fired;
    assert fired[0] in fired;
    assert surface.notifications == [Notification(Handler(1), slider.(value := 20))];
    assert surface.tracks[0].slider.value == 0;
  }

  /**
   * A handler set on a strip after first use never reaches the table's copy,
   * so dispatching to that control notifies no one.
   */
  method HandlerSetAfterFirstUse()
  {
    var surface := new NanoKontrol();
    surface.Dispatch(0, 10);
    var ts := surface.tracks;
    var slider := ts[0].slider.(updateHandler := Some(Handler(1)));
    surface.SetTracks(ts[0 := ts[0].(slider := slider)]);
    surface.Dispatch(0, 20);
    StandardTableShape();
    assert surface.notifications == [];
    assert surface.lookupTable.value[0].value == 20;
  }
}
