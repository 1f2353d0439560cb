/** The part of a cached file state that document synchronisation reads and writes. */
module OpenStates {

  datatype OpenState = OpenState(isOpen: bool, version: nat, mtime: real)

  const NEVER_OPENED := OpenState(false, 0, 0.0)

  function MarkedOpen(o: OpenState): OpenState {
    o.(isOpen := true, version := o.version + 1)
  }
}
