/** The contents of a write batch and what it does to a plain map. */
module Batches {
  import opened InternalKeys

  /** One record of a write batch. */
  datatype Op = Op(user: UserKey, kind: ValueType, value: string)

  /** What a batch does to a plain map. */
  function ApplyOp(m: map<UserKey, string>, op: Op): map<UserKey, string> {
    if op.kind.Value? then m[op.user := op.value] else m - {op.user}
  }

  function ApplyOps(m: map<UserKey, string>, batch: seq<Op>): map<UserKey, string> {
    if batch == [] then m else ApplyOp(ApplyOps(m, batch[..|batch| - 1]), batch[|batch| - 1])
  }
}
