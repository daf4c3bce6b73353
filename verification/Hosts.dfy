/** A host of a cluster as the driver sees it. */
module Hosts {

  datatype HostRole = READER | WRITER | UNKNOWN

  datatype HostInfo = HostInfo(host: string, port: int, up: bool, role: HostRole, weight: nat, lastUpdate: int)
  {
    predicate IsHostWriter() { role.WRITER? }
  }
}
