/**
 * The time log: operations with their start and end times, appended in
 * the order they begin.
 */
module TimeLogs {
  /**
   * `TimeLogEntry`: an operation name and its start time; the end time
   * starts at 0 and is set when the operation finishes.
   */
  class TimeLogEntry {
    var entryType: string
    var start: int
    var end: int

    constructor(entryType: string, start: int)
      ensures this.entryType == entryType && this.start == start && end == 0
    {
      this.entryType := entryType;
      this.start := start;
      end := 0;
    }
  }

  /** `TimeLog`: the entries in the order they were added. */
  class TimeLog {
    var log: seq<TimeLogEntry>

    constructor()
      ensures log == []
    {
      log := [];
    }

    /** `addEntry`: the entry goes last; the entries before it, and the entries themselves, are unchanged. */
    method AddEntry(e: TimeLogEntry)
      modifies this
      ensures log == old(log) + [e]
      ensures log[..|old(log)|] == old(log)
    {
      log := log + [e];
    }

    /** `toJSON`: the entries in insertion order. */
    function ToJson(): (r: seq<TimeLogEntry>)
      reads this
      ensures |r| == |log| && forall i :: 0 <= i < |r| ==> r[i] == log[i]
    {
      log
    }
  }
}
