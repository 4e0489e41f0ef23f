/**
 An optional value: no sample on a stopped tick, no final state for a run
 that faulted, and no best distance yet (infinity) in the nearest-stop scan.
 */
module Options {

  datatype Option<+T> = None | Some(value: T)
}
