/** How `main` starts the module once the launcher options are parsed:
    in this process with no replica id, or as `processes` replicas whose
    `PROCESS_ID` values are 1, 2, ..., `processes`. */
module Replicas {

  /** One call of `start`: in-process (`process_id=None`), or in a spawned
      process with the given `process_id`. */
  datatype Launch = InProcess | Replica(processId: int)

  /** The calls of `start` that `main` makes, in order.  More than one
      process spawns one replica per index of `range(processes)`, each with
      id `i + 1`; one process or fewer (the count is not validated) runs the
      module once in-process. */
  method Launches(processes: int) returns (launches: seq<Launch>)
    ensures processes <= 1 ==> launches == [InProcess]
    ensures processes > 1 ==> |launches| == processes
    ensures processes > 1 ==> forall i :: 0 <= i < |launches| ==> launches[i] == Replica(i + 1)
    ensures processes > 1 ==> forall k :: 1 <= k <= processes ==> Replica(k) in launches
    ensures forall l :: l in launches && l.Replica? ==> 1 <= l.processId <= processes
    ensures forall i, j :: 0 <= i < j < |launches| ==> launches[i] != launches[j]
  {
    if processes > 1 {
      launches := [];
      for i := 0 to processes
        invariant |launches| == i
        invariant forall j :: 0 <= j < i ==> launches[j] == Replica(j + 1)
      {
        launches := launches + [Replica(i + 1)];
      }
      forall k | 1 <= k <= processes ensures Replica(k) in launches {
        assert launches[k - 1] == Replica(k);
      }
    } else {
      launches := [InProcess];
    }
  }
}
