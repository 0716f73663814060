/** File descriptors: a new one is always the lowest that is free. */
module Descriptors {

  /** The lowest descriptor from k on that is not in use. */
  function LowestFree(used: set<int>, k: nat): (fd: nat)
    ensures fd >= k && fd !in used
    ensures forall j :: k <= j < fd ==> j in used
    decreases |used|
  {
    if k !in used then k
    else
      var fd := LowestFree(used - {k}, k + 1);
      assert forall j :: k <= j < fd ==> j in used by {
        forall j | k <= j < fd ensures j in used {
          assert j == k || j in used - {k};
        }
      }
      fd
  }
}
