/** The error codes a filesystem call leaves behind. */
module Errno {
  const PEINVAL := 22
  const PEBADFS := 1003
  const PENOFILE := 1004
  const PEINUSE := 1005
  const PETOOFAT := 1006
  const PEFMODE := 1007
  const PEFPERM := 1008
  const PEFNAME := 1009
}
