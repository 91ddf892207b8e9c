/**
 * Helpers of ed247_internals.h: the stream types that carry signals, the
 * simulation-time hook, and `SmartList`, the vector with a looping cursor
 * behind the C API's older list handles.
 */
module Internals {
  import opened Types
  import opened Cursors
  import Conversions

  /** `StreamSignalTypeChecker`: the stream types made of signals. */
  predicate StreamSignalType(streamType: int)
  {
    streamType == STREAM_ANALOG || streamType == STREAM_DISCRETE ||
    streamType == STREAM_NAD || streamType == STREAM_VNAD
  }

  /**
   * A stream type carries signals exactly when its name is also the name of
   * a signal type.
   */
  lemma SignalStreamsNameSignalTypes(streamType: int)
    ensures StreamSignalType(streamType) <==>
      Conversions.SignalTypeFromString(Conversions.StreamTypeString(streamType)) != SIGNAL_INVALID
    ensures StreamSignalType(streamType) ==>
      Conversions.SignalTypeFromString(Conversions.StreamTypeString(streamType)) == streamType
  {
  }

  /** What the user's simulation-time handler reports: its status and the timestamp it wrote. */
  datatype HandlerAnswer = HandlerAnswer(status: Status, written: Timestamp)

  /**
   * `SimulationTimeHandler`: an optional user callback that sets the
   * timestamps of the library. The callback is foreign code, so each call
   * is given what it answers; `handler` names the installed callback.
   */
  class SimulationTimeHandler {
    var handler: Pointer<nat>

    constructor()
      ensures handler == Null && !IsValid()
    {
      handler := Null;
    }

    /** `set_handler`: installs a callback, or none with a null one. */
    method SetHandler(h: Pointer<nat>)
      modifies this
      ensures handler == h
      ensures IsValid() <==> h.Ptr?
    {
      handler := h;
    }

    /** `is_valid`: a callback is installed. */
    predicate IsValid()
      reads this
    {
      handler.Ptr?
    }

    /**
     * `update_timestamp`: without a callback the timestamp is left as it is
     * and the answer is "failed"; with one, the callback's timestamp is
     * taken and the answer is "failed" exactly when it did not succeed.
     */
    method UpdateTimestamp(timestamp: Timestamp, answer: HandlerAnswer) returns (failed: bool, updated: Timestamp)
      ensures !IsValid() ==> failed && updated == timestamp
      ensures IsValid() ==> updated == answer.written && (failed <==> answer.status != Success)
    {
      if IsValid() {
        updated := answer.written;
        failed := answer.status != Success;
      } else {
        updated := timestamp;
        failed := true;
      }
    }
  }

  /** `SmartList<T>`: a vector walked by a looping cursor, with a `managed` flag. */
  class SmartList<T> {
    var items: seq<T>
    /** The cursor; `|items|` is `end`. */
    var cursor: nat
    var managed: bool
    /** The `next` calls since the cursor was last put on `end`. */
    ghost var steps: nat

    ghost predicate Valid()
      reads this
    {
      cursor == Walk(steps, |items|)
    }

    /** A list of `items`, not managed, with its cursor on `end`. */
    constructor(items: seq<T>)
      ensures Valid() && this.items == items && !managed
      ensures cursor == |items| && steps == 0
    {
      this.items := items;
      managed := false;
      cursor := |items|;
      steps := 0;
    }

    /** `reset`: the cursor back to `end`. */
    method Reset()
      modifies this
      ensures Valid() && items == old(items) && managed == old(managed)
      ensures cursor == |items| && steps == 0
    {
      cursor := |items|;
      steps := 0;
    }

    /** `next`: one step of the looping cursor, then the element under it, null at `end`. */
    method Next() returns (p: Pointer<T>)
      requires Valid()
      modifies this
      ensures Valid() && items == old(items) && managed == old(managed)
      ensures steps == old(steps) + 1 && p == At(items, Walk(steps, |items|))
    {
      if cursor == |items| {
        cursor := 0;
      } else {
        cursor := cursor + 1;
      }
      steps := steps + 1;
      p := if cursor == |items| then Null else Ptr(items[cursor]);
    }

    /** `next_ok`: `next` in the base class. */
    method NextOk() returns (p: Pointer<T>)
      requires Valid()
      modifies this
      ensures Valid() && items == old(items) && managed == old(managed)
      ensures steps == old(steps) + 1 && p == At(items, Walk(steps, |items|))
    {
      p := Next();
    }

    /** `set_managed`. */
    method SetManaged(m: bool)
      modifies this
      ensures managed == m && items == old(items) && cursor == old(cursor) && steps == old(steps)
    {
      managed := m;
    }

    /** `managed`. */
    method Managed() returns (m: bool)
      ensures m == managed
    {
      m := managed;
    }
  }
}
