/** Vocabulary shared by every module: log ids, entries, byte strings, results. */
module Types {

  datatype Option<+T> = None | Some(value: T)

  datatype Result<+T, +E> = Ok(value: T) | Err(error: E)

  newtype byte = x: int | 0 <= x < 256
  type Bytes = seq<byte>

  type U64 = x: int | 0 <= x < 0x1_0000_0000_0000_0000
  type I64 = x: int | -0x8000_0000_0000_0000 <= x < 0x8000_0000_0000_0000

  type GroupId = nat
  type NodeId = nat

  /** A log id is ordered by term first and index second, as openraft orders it. */
  datatype LogId = LogId(term: nat, index: nat) {
    predicate AtMost(other: LogId) {
      term < other.term || (term == other.term && index <= other.index)
    }
  }

  datatype Payload =
    | Blank
    | Normal(data: Bytes)
    | Membership(members: set<NodeId>)

  datatype Entry = Entry(id: LogId, payload: Payload)

  /** The magic payload by which a leader asks a standby for a snapshot. */
  const STANDBY_SNAPSHOT_TRIGGER: Bytes :=
    [0, 109, 117, 108, 116, 105, 114, 97, 102, 116, 46, 115, 116, 97, 110, 100, 98, 121, 95,
     115, 110, 97, 112, 115, 104, 111, 116, 95, 116, 114, 105, 103, 103, 101, 114, 0]

  predicate IsTrigger(e: Entry) {
    e.payload.Normal? && e.payload.data == STANDBY_SNAPSHOT_TRIGGER
  }

  /** How many entries of the log an optional last log id stands for. */
  function Count(id: Option<LogId>): nat {
    match id
    case None => 0
    case Some(l) => l.index + 1
  }
}
