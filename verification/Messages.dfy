/** The point-to-point messages by which the IO tasks serve IO task 0 in the serial write and read. */
module Messages {
  import opened Hyperslabs
  import opened Sequences

  datatype Body =
    | Length(n: nat) | RegionCount(n: nat) | Starts(starts: seq<int>) | Counts(counts: seq<nat>)
    | Data(data: seq<Value>)

  /** A message on the IO communicator. */
  datatype Message = Message(tag: nat, body: Body)

  /** The tag of message `k` of the exchange with a task tells the task and the message apart from all others. */
  lemma TagsDistinct(rank: nat, k: nat, rank': nat, k': nat, numIotasks: nat)
    requires rank < numIotasks && rank' < numIotasks && rank + k * numIotasks == rank' + k' * numIotasks
    ensures rank == rank' && k == k'
  {
    if k < k' {
      RowBounds(k, k', numIotasks);
    } else if k' < k {
      RowBounds(k', k, numIotasks);
    }
  }
}
