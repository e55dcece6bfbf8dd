/** The names of the scheduler pods. */
module Pods {
  import opened Bytes

  type Name = Key

  /** dist-scheduler */
  const SCHEDULER_PREFIX: Name := [100, 105, 115, 116, 45, 115, 99, 104, 101, 100, 117, 108, 101, 114]

  /** dist-scheduler-relay */
  const RELAY_PREFIX: Name := SCHEDULER_PREFIX + [45, 114, 101, 108, 97, 121]

  predicate IsRelay(name: Name) { RELAY_PREFIX <= name }

  ghost predicate Distinct(names: seq<Name>) {
    forall i, j :: 0 <= i < j < |names| ==> names[i] != names[j]
  }
}
