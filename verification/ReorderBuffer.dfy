/** The reordering step shared by the frame store and the filter pool: entries arrive in a map
    keyed by sequence number, and the gap-free run directly above the last consumed number is
    moved to an output list.  Afterwards `erase(begin, end)` drops every key below the last
    consumed one, so that last key itself stays in the map. */
module ReorderBuffer {

  /** The keys not consumed yet. */
  function Above<T>(buffer: map<nat, T>, low: nat): set<nat> {
    set k | k in buffer && low < k
  }

  /** The last key of the gap-free run directly above `low`, or `low` when `low + 1` is missing. */
  function RunEnd<T>(buffer: map<nat, T>, low: nat): (end: nat)
    ensures low <= end
    ensures forall k :: low < k <= end ==> k in buffer
    ensures end + 1 !in buffer
    decreases Above(buffer, low)
  {
    if low + 1 in buffer then
      assert low + 1 in Above(buffer, low) && low + 1 !in Above(buffer, low + 1);
      RunEnd(buffer, low + 1)
    else
      low
  }

  /** The entries of the run `low + 1 .. end`, in key order. */
  function Run<T>(buffer: map<nat, T>, low: nat, end: nat): (run: seq<T>)
    requires low <= end
    requires forall k :: low < k <= end ==> k in buffer
    ensures |run| == end - low
    ensures forall i :: 0 <= i < |run| ==> run[i] == buffer[low + 1 + i]
  {
    seq(end - low, i requires 0 <= i < end - low => buffer[low + 1 + i])
  }

  /** The map after the run up to `end` was consumed. */
  function Trim<T>(buffer: map<nat, T>, low: nat, end: nat): map<nat, T> {
    if low < end then map k | k in buffer && end <= k :: buffer[k] else buffer
  }

  /** Trimming removes nothing above the consumed run, keeps the run's end blocked, and, if there was a run,
      removes everything below its end. */
  lemma TrimKeeps<T>(buffer: map<nat, T>, low: nat)
    ensures var end := RunEnd(buffer, low);
            var rest := Trim(buffer, low, end);
            && (forall k :: end < k ==> (k in rest <==> k in buffer))
            && (forall k :: k in rest ==> k in buffer && rest[k] == buffer[k])
            && (forall k :: k in rest <==> k in buffer && (low < end ==> end <= k))
            && RunEnd(rest, end) == end
  {
  }
}
