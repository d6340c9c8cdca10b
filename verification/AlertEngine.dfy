/** The episode store and the alert supervisor as objects: rows inserted and stamped in place, and a
 * dictionary of sets that mirrors the open ones.
 */
module AlertEngine {
  import opened Alerts
  import opened AlertRecord
  import R = AlertRecord
  import opened Wrappers

  predicate OpenBefore(rows: Record, n: nat, d: Device, b: Bound) {
    exists k | 0 <= k < n :: OpenAt(rows, k, d, b)
  }

  /** The dictionary after the first `n` rows: their open bounds, grouped, and no empty set. */
  ghost predicate GroupedUpTo(grouped: Mirror, rows: Record, n: nat) {
    && (forall d, b :: Mirrors(grouped, d, b) <==> OpenBefore(rows, n, d, b))
    && (forall d :: d in grouped ==> grouped[d] != {})
  }

  function WithOpen(grouped: Mirror, row: Episode): Mirror {
    if row.clearedValue.None? then grouped[row.device := BoundsOf(grouped, row.device) + {row.bound}] else grouped
  }

  lemma OneMoreRow(rows: Record, i: nat, d: Device, b: Bound)
    requires i < |rows|
    ensures OpenBefore(rows, i + 1, d, b) <==> OpenBefore(rows, i, d, b) || OpenAt(rows, i, d, b)
  {
    if OpenBefore(rows, i, d, b) {
      var k: nat :| k < i && OpenAt(rows, k, d, b);
      assert k < i + 1 && OpenAt(rows, k, d, b);
    }
  }

  lemma OneMoreOpen(grouped: Mirror, row: Episode, d: Device, b: Bound)
    ensures Mirrors(WithOpen(grouped, row), d, b)
            <==> Mirrors(grouped, d, b) || (row.clearedValue.None? && d == row.device && b == row.bound)
  {
  }

  lemma GroupStep(grouped: Mirror, rows: Record, i: nat)
    requires i < |rows| && GroupedUpTo(grouped, rows, i)
    ensures GroupedUpTo(WithOpen(grouped, rows[i]), rows, i + 1)
  {
    var after := WithOpen(grouped, rows[i]);
    forall d, b ensures Mirrors(after, d, b) <==> OpenBefore(rows, i + 1, d, b) {
      OneMoreRow(rows, i, d, b);
      OneMoreOpen(grouped, rows[i], d, b);
      hide OpenBefore, Mirrors, WithOpen;
    }
    hide OpenBefore, Mirrors;
  }

  lemma NoneGrouped(rows: Record)
    ensures GroupedUpTo(map[], rows, 0)
  {
  }

  lemma AllGrouped(grouped: Mirror, rows: Record)
    requires GroupedUpTo(grouped, rows, |rows|)
    ensures Agrees(grouped, rows) && forall d :: d in grouped ==> grouped[d] != {}
  {
    forall d, b ensures Mirrors(grouped, d, b) <==> IsOpen(rows, d, b) {
      assert OpenBefore(rows, |rows|, d, b) <==> IsOpen(rows, d, b);
      hide OpenBefore, IsOpen, Mirrors;
    }
  }

  class EpisodeStore {
    var rows: Record

    method RaiseEpisode(d: Device, b: Bound, value: real) returns (error: Option<StoreError>)
      modifies this
      ensures match R.Raise(old(rows), d, b, value)
              case Ok(after) => error == None && rows == after
              case Err(e) => error == Some(e) && rows == old(rows)
    {
      if IsOpen(rows, d, b) {
        return Some(IndexViolation);
      }
      rows := rows + [Episode(d, b, value, None)];
      error := None;
    }

    /** Stamp the open episode of this device and bound. */
    method ClearEpisode(d: Device, b: Bound, value: real) returns (error: Option<StoreError>)
      modifies this
      ensures match R.Clear(old(rows), d, b, value)
              case Ok(after) => error == None && rows == after
              case Err(e) => error == Some(e) && rows == old(rows)
    {
      var closed := false;
      var i := 0;
      while i < |rows|
        invariant 0 <= i <= |rows| == |old(rows)|
        invariant forall k ::
                  0 <= k < |rows| ==> rows[k] == if k < i then Stamped(old(rows), d, b, value)[k] else old(rows)[k]
        invariant closed <==> exists k | 0 <= k < i :: OpenAt(old(rows), k, d, b)
      {
        if OpenAt(rows, i, d, b) {
          rows := rows[i := rows[i].(clearedValue := Some(value))];
          closed := true;
        }
        i := i + 1;
      }
      assert rows == Stamped(old(rows), d, b, value);
      if !closed {
        assert rows == old(rows);
        return Some(NothingToClear);
      }
      error := None;
    }

    /** Write a transition into the record. */
    method WriteChange(d: Device, c: Change) returns (error: Option<StoreError>)
      modifies this
      ensures match R.Write(old(rows), d, c)
              case Ok(after) => error == None && rows == after
              case Err(e) => error == Some(e) && rows == old(rows)
    {
      if c.breach {
        error := RaiseEpisode(d, c.bound, c.value);
      } else {
        error := ClearEpisode(d, c.bound, c.value);
      }
    }

    /** The open bounds of every device that has one. */
    method OpenBounds() returns (grouped: Mirror)
      ensures Agrees(grouped, rows)
      ensures forall d :: d in grouped ==> grouped[d] != {}
    {
      hide Mirrors, GroupedUpTo;
      grouped := map[];
      var i := 0;
      NoneGrouped(rows);
      while i < |rows|
        invariant 0 <= i <= |rows|
        invariant GroupedUpTo(grouped, rows, i)
      {
        GroupStep(grouped, rows, i);
        var row := rows[i];
        if row.clearedValue.None? {
          grouped := grouped[row.device := BoundsOf(grouped, row.device) + {row.bound}];
        }
        i := i + 1;
      }
      AllGrouped(grouped, rows);
    }

    /** The second writer: a bound taken off the band takes its open episode with it. */
    method TakeOff(d: Device, removed: set<Bound>)
      modifies this
      ensures rows == ClosedExternally(old(rows), d, removed)
    {
      var i := 0;
      while i < |rows|
        invariant 0 <= i <= |rows| == |old(rows)|
        invariant forall k ::
                  0 <= k < |rows| ==>
                    rows[k] == if k < i then ClosedExternally(old(rows), d, removed)[k] else old(rows)[k]
      {
        if rows[i].device == d && rows[i].bound in removed && rows[i].clearedValue.None? {
          rows := rows[i := rows[i].(clearedValue := Some(rows[i].raisedValue))];
        }
        i := i + 1;
      }
      assert rows == ClosedExternally(old(rows), d, removed);
    }
  }

  class AlertSupervisor {
    const store: EpisodeStore
    var open: Mirror

    constructor (store: EpisodeStore)
      ensures this.store == store && open == map[]
    {
      this.store := store;
      open := map[];
    }

    function State(): R.State
      reads this, store
    {
      R.State(open, store.rows)
    }

    /** Load the open episodes, so that a restart does not announce a live breach again. */
    method Prime()
      modifies this
      ensures Agrees(open, store.rows)
    {
      open := store.OpenBounds();
    }

    /** Evaluate one reading; the record is written before the mirror moves. `published` are the changes
     * that were announced, all of them unless the store refused one. */
    method OnReading(d: Device, r: Reading, t: Thresholds) returns (published: seq<Change>, error: Option<StoreError>)
      modifies this, store
      ensures (State(), error) == R.OnReading(old(State()), d, r, t)
      ensures r.quality != Good || r.value == None || !t.Configured() ==>
                published == [] && error == None && open == old(open) && store.rows == old(store.rows)
      ensures r.quality == Good && r.value.Some? && t.Configured() ==>
                published <= Evaluate(r.value.value, t, BoundsOf(old(open), d))
                && (error == None ==> published == Evaluate(r.value.value, t, BoundsOf(old(open), d)))
    {
      published, error := [], None;
      if !ShouldEvaluate(r) || !t.Configured() {
        return;
      }
      var openBounds := BoundsOf(open, d);
      open := open[d := openBounds];
      ghost var s0 := State();
      var changes := Evaluate(r.value.value, t, openBounds);
      hide Evaluate, Write;
      var i := 0;
      while i < |changes|
        invariant 0 <= i <= |changes| && published == changes[..i]
        invariant d in open && openBounds == open[d] && error == None
        invariant TransitAll(s0, d, changes) == TransitAll(State(), d, changes[i..])
      {
        var change := changes[i];
        assert changes[i..][0] == change && changes[i..][1..] == changes[i + 1..];
        error := store.WriteChange(d, change);
        if error.Some? {
          return;
        }
        if change.breach {
          openBounds := openBounds + {change.bound};
        } else {
          openBounds := openBounds - {change.bound};
        }
        open := open[d := openBounds];
        published := published + [change];
        i := i + 1;
      }
    }

    /** The second half of a resync: `before` is the mirror as it was when the read began, `read` what the
     * record said. The mirror's own changes since are applied on top, and empty sets are dropped. */
    method FinishResync(before: Mirror, read: Mirror)
      modifies this
      ensures MergedFrom(open, HasRead(before, read), old(open))
      ensures forall d :: d in open ==> open[d] != {}
    {
      var after := open;
      var merged := read;
      var todo := before.Keys + after.Keys;
      while todo != {}
        invariant todo <= before.Keys + after.Keys && open == after
        invariant forall d, b ::
          Mirrors(merged, d, b)
            == (if d in todo then Mirrors(read, d, b)
                else Merged(Mirrors(before, d, b), Mirrors(read, d, b), Mirrors(after, d, b)))
        decreases todo
      {
        EmptyOrInhabited(todo);
        var device :| device in todo;
        todo := todo - {device};
        ghost var was := merged;
        var raised := BoundsOf(after, device) - BoundsOf(before, device);
        var cleared := BoundsOf(before, device) - BoundsOf(after, device);
        if raised != {} {
          merged := merged[device := BoundsOf(merged, device) + raised];
        }
        if cleared != {} && device in merged {
          merged := merged[device := merged[device] - cleared];
        }
        forall b ensures Mirrors(merged, device, b)
            == Merged(Mirrors(before, device, b), Mirrors(was, device, b), Mirrors(after, device, b)) {
          assert b in raised <==> Mirrors(after, device, b) && !Mirrors(before, device, b);
          assert b in cleared <==> Mirrors(before, device, b) && !Mirrors(after, device, b);
        }
        assert forall d, b :: d != device ==> Mirrors(merged, d, b) == Mirrors(was, d, b);
      }
      open := map d | d in merged && merged[d] != {} :: merged[d];
    }
  }
}
