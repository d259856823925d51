/** The three implementations, where what they accept and build differs. */
module Ports {
  import opened Strings

  datatype Port = TypeScript | GoPort | RustPort

  /** How a port runs the table: the numbers it decodes and the holes it wraps are the port's,
      and Rust bounds how deep a bracket may stand. */
  datatype Mode = Mode(port: Port, maxDepth: Option<nat>)

  /** `MAX_GROUP_DEPTH`. */
  const MAX_GROUP_DEPTH: nat := 2048

  const TYPESCRIPT: Mode := Mode(TypeScript, None)
  const GO: Mode := Mode(GoPort, None)
  const RUST: Mode := Mode(RustPort, Some(MAX_GROUP_DEPTH))
}
