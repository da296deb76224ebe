/**
 * The producer/consumer pair of `threaded.py`: the producer queues the
 * statements that create a table, insert every row of a data frame and
 * select everything back, then a shutdown sentinel; the consumer executes
 * queued statements in arrival order until it takes the sentinel.
 */
module AsyncPipeline {
  import opened Wrappers
  import opened QueryBuilder
  import opened Text

  /** A queued statement and its parameters (`None` for none). */
  datatype Message = Message(sql: string, params: Option<seq<string>>)

  /** The text of the sentinel that stops the consumer. */
  const Shutdown := "__SHUTDOWN__"

  /** Everything `produce` queues, in order. */
  function Produced(table: string, df: Frame): (q: seq<Message>)
    ensures |q| == |df.rows| + 3
    ensures q[0] == Message(Create(table, df), None)
    ensures forall k :: 0 <= k < |df.rows| ==> q[k + 1] == Message(Insert(table, df), Some(df.rows[k]))
    ensures q[|df.rows| + 1] == Message(SelectAll(table), None)
    ensures q[|df.rows| + 2] == Message(Shutdown, None)
  {
    [Message(Create(table, df), None)]
    + seq(|df.rows|, k requires 0 <= k < |df.rows| => Message(Insert(table, df), Some(df.rows[k])))
    + [Message(SelectAll(table), None), Message(Shutdown, None)]
  }

  /** The loop of `produce` over the rows: one message per row, each carrying that row as parameters. */
  method PutRows(queue: seq<Message>, sql: string, rows: seq<seq<string>>) returns (queue': seq<Message>)
    ensures queue' == queue + seq(|rows|, k requires 0 <= k < |rows| => Message(sql, Some(rows[k])))
  {
    queue' := queue;
    for i := 0 to |rows|
      invariant queue' == queue + seq(i, k requires 0 <= k < i => Message(sql, Some(rows[k])))
    {
      queue' := queue' + [Message(sql, Some(rows[i]))];
    }
  }

  /** `AsyncQueryProducer.produce`, with the queue as the sequence of messages put on it. */
  method Produce(table: string, df: Frame) returns (queue: seq<Message>)
    ensures queue == Produced(table, df)
  {
    var create := Query(table, "CREATE", Some(df), None, None, None);
    assert create == Success(Create(table, df));
    queue := [Message(create.value, None)];
    var insert := Query(table, "INSERT", Some(df), None, None, None);
    assert insert == Success(Insert(table, df));
    queue := PutRows(queue, insert.value, df.rows);
    var select := Query(table, "SELECT_ALL", None, None, None, None);
    assert select == Success(SelectAll(table));
    queue := queue + [Message(select.value, None)];
    queue := queue + [Message(Shutdown, None)];
  }

  /**
   * A message that ends `consume`: the sentinel, or a statement that is empty
   * or all whitespace, whose first word `query.split()[0]` does not exist, so
   * the uncaught IndexError ends the loop before anything is executed.
   */
  predicate Stops(m: Message)
  {
    m.sql == Shutdown || AllSpace(m.sql)
  }

  /** Index of the first message that ends `consume`, or the length of the queue when there is none. */
  function FirstStop(queue: seq<Message>): (k: nat)
    ensures k <= |queue|
    ensures forall j :: 0 <= j < k ==> !Stops(queue[j])
    ensures k < |queue| ==> Stops(queue[k])
  {
    if queue == [] then 0
    else if Stops(queue[0]) then 0
    else 1 + FirstStop(queue[1..])
  }

  /** How `consume` ends. */
  datatype Exit =
    | Signalled  // it took the sentinel
    | TimedOut   // the queue ran dry and `wait_for` timed out
    | Raised     // a blank statement raised IndexError, which is not caught

  /**
   * `AsyncQueryConsumer.consume`: the statements it executes, in arrival
   * order, up to the first message that ends it, and how it ends.
   */
  method Consume(queue: seq<Message>) returns (executed: seq<Message>, exit: Exit)
    ensures executed == queue[..FirstStop(queue)]
    ensures exit == TimedOut <==> FirstStop(queue) == |queue|
    ensures exit == Signalled <==> FirstStop(queue) < |queue| && queue[FirstStop(queue)].sql == Shutdown
    ensures exit == Raised <==> FirstStop(queue) < |queue| && queue[FirstStop(queue)].sql != Shutdown
  {
    executed := [];
    var i := 0;
    while i < |queue|
      invariant 0 <= i <= |queue| && executed == queue[..i]
      invariant forall j :: 0 <= j < i ==> !Stops(queue[j])
    {
      if queue[i].sql == Shutdown {
        return executed, Signalled;
      }
      if AllSpace(queue[i].sql) {
        return executed, Raised;
      }
      executed := executed + [queue[i]];
      i := i + 1;
    }
    exit := TimedOut;
  }

  /**
   * No statement the builder makes ends the consumer early: each starts with
   * an SQL keyword, so it is neither the sentinel nor blank.
   */
  lemma StatementsRun(table: string, df: Frame)
    ensures !Stops(Message(Create(table, df), None))
    ensures forall params :: !Stops(Message(Insert(table, df), params))
    ensures !Stops(Message(SelectAll(table), None))
  {
    assert Create(table, df)[0] == 'C';
    assert Insert(table, df)[0] == 'I';
    assert SelectAll(table)[0] == 'S';
  }

  /**
   * Consuming what the producer queued executes the CREATE, one INSERT per
   * row with that row's values, and the SELECT, in that order, and then stops
   * at the sentinel.
   */
  lemma PipelineRunsAll(table: string, df: Frame)
    ensures FirstStop(Produced(table, df)) == |df.rows| + 2
    ensures Produced(table, df)[|df.rows| + 2].sql == Shutdown
    ensures Produced(table, df)[..|df.rows| + 2] ==
              [Message(Create(table, df), None)]
              + seq(|df.rows|, k requires 0 <= k < |df.rows| => Message(Insert(table, df), Some(df.rows[k])))
              + [Message(SelectAll(table), None)]
  {
    var q := Produced(table, df);
    StatementsRun(table, df);
    assert forall j :: 0 <= j < |df.rows| + 2 ==> !Stops(q[j]);
    FirstStopAt(q, |df.rows| + 2);
  }

  /** The first stopping message is any one that only non-stopping messages precede. */
  lemma {:induction false} FirstStopAt(queue: seq<Message>, k: nat)
    requires k < |queue| && Stops(queue[k])
    requires forall j :: 0 <= j < k ==> !Stops(queue[j])
    ensures FirstStop(queue) == k
    decreases k
  {
    if k > 0 {
      FirstStopAt(queue[1..], k - 1);
    }
  }
}
