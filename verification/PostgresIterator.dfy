/**
 The batch iterator of the Postgres repository: a goroutine fetches batches from a cursor and sends the rows
 through a buffered channel, the consumer yields them. Each event is one atomic action of either side, of the
 context, or of the function that the rows are yielded to.
 */
module PostgresIterator {

  const CAPACITY: nat := 1000  // the channel's buffer and the size of a batch

  /** Where the producer is: before its select, before the FETCH, sending a batch, before close(ch), after it. */
  datatype Producer<Row> = Selecting | Fetching | Sending(batch: seq<Row>) | Closing | Closed

  /** Where the consumer is: at the range loop, holding a row it received, before CLOSE, before Commit, returned. */
  datatype Consumer<Row> = Ranging | Holding(row: Row) | ClosingCursor | Committing | Returned(how: Exit)

  datatype Exit = Exhausted | StoppedEarly | Cancelled

  /** How a FETCH ends: with rows, with rows that do not fit the entity, or refused by the database or the context. */
  datatype Outcome = Delivered | Unscannable | Refused

  datatype Transaction = Open | EndedByCaller | EndedByIterator

  datatype State<Row> = State(
    own: bool,            // the iterator began the transaction; otherwise it is the caller's, from the context
    tx: Transaction,
    aborted: bool,        // a refused FETCH has aborted the transaction
    unfetched: seq<Row>,  // what the cursor has not delivered yet
    producer: Producer<Row>,
    channel: seq<Row>,
    consumer: Consumer<Row>,
    quits: nat,           // signals in the quit channel
    fetchFailed: bool,    // fetchErr is set
    cancelled: bool,      // the context is done
    yielded: seq<Row>,    // rows the caller has seen
    errorsSeen: nat,      // calls of the caller's function that came with an error
    stopped: bool,        // that function has returned false, for a row or for the error of CLOSE
    calledAfterStop: bool,
    dropped: seq<Row>     // rows received but not yielded, because the context was done
  )

  datatype Event =
    | Select                       // producer: take a quit signal if there is one
    | Fetch(outcome: Outcome)      // producer: FETCH FORWARD 1000
    | Send                         // producer: one row into the channel
    | CloseChannel                 // producer
    | Receive                      // consumer: next row, or the end of the range loop
    | Yield(continues: bool)       // consumer: hand out the row it holds
    | CloseCursor(continues: bool) // consumer: CLOSE; what the caller's function says to its error, if there is one
    | Commit                       // consumer
    | Cancel                       // the caller's context
    | EndTransaction               // the caller ends a transaction of its own

  function Start<Row>(rows: seq<Row>, own: bool): State<Row> {
    State(own, Open, false, rows, Selecting, [], Ranging, 0, false, false, [], 0, false, false, [])
  }

  /** Statements in the transaction fail. */
  predicate Unusable<Row>(s: State<Row>) { s.aborted || s.cancelled || s.tx.EndedByCaller? }

  function Min(a: nat, b: nat): nat { if a <= b then a else b }

  predicate Enabled<Row>(s: State<Row>, e: Event) {
    match e
    case Select => s.producer.Selecting?
    case Fetch(outcome) =>
      && s.producer.Fetching?
      && (Unusable(s) ==> outcome == Refused)
      && (outcome == Unscannable ==> s.unfetched != [])
    case Send => s.producer.Sending? && s.producer.batch != [] && |s.channel| < CAPACITY
    case CloseChannel => s.producer.Closing?
    case Receive => s.consumer.Ranging? && (s.channel != [] || s.producer.Closed?)
    case Yield(_) => s.consumer.Holding?
    case CloseCursor(continues) => s.consumer.ClosingCursor? && (!continues ==> Unusable(s))
    case Commit => s.consumer.Committing?
    case Cancel => !s.cancelled
    case EndTransaction => !s.own && s.tx.Open?
  }

  function Step<Row>(s: State<Row>, e: Event): State<Row>
    requires Enabled(s, e)
  {
    match e
    case Select =>
      if s.quits > 0 then s.(producer := Closing, quits := s.quits - 1) else s.(producer := Fetching)
    case Fetch(outcome) =>
      if outcome != Delivered then
        s.(producer := Closing, fetchFailed := true, aborted := s.aborted || outcome == Refused)
      else
        var n := Min(CAPACITY, |s.unfetched|);
        if n == 0 then s.(producer := Closing)
        else s.(producer := Sending(s.unfetched[..n]), unfetched := s.unfetched[n..])
    case Send =>
      var rest := s.producer.batch[1..];
      s.(channel := s.channel + [s.producer.batch[0]], producer := if rest == [] then Selecting else Sending(rest))
    case CloseChannel => s.(producer := Closed)
    case Receive =>
      if s.channel == [] then s.(consumer := ClosingCursor)
      else s.(consumer := Holding(s.channel[0]), channel := s.channel[1..])
    case Yield(continues) =>
      var told := s.(stopped := !continues, errorsSeen := s.errorsSeen + (if s.cancelled || s.fetchFailed then 1 else 0));
      if s.cancelled then
        told.(consumer := Returned(Cancelled), dropped := s.dropped + [s.consumer.row], quits := s.quits + 1)
      else
        var t := told.(yielded := s.yielded + [s.consumer.row]);
        if continues then t.(consumer := Ranging)
        else t.(consumer := Returned(StoppedEarly), quits := t.quits + 2)
    case CloseCursor(continues) =>
      if Unusable(s) then s.(consumer := Committing, errorsSeen := s.errorsSeen + 1, stopped := !continues)
      else s.(consumer := Committing)
    case Commit =>
      var t := s.(consumer := Returned(Exhausted), quits := s.quits + 1, tx := Ended(s.tx));
      if Unusable(s) then t.(errorsSeen := s.errorsSeen + 1, calledAfterStop := s.stopped) else t
    case Cancel => s.(cancelled := true)
    case EndTransaction => s.(tx := EndedByCaller)
  }

  /** Commit ends the transaction whether it succeeds or not. */
  function Ended(tx: Transaction): Transaction { if tx.Open? then EndedByIterator else tx }

  /** An event that is not enabled does not happen. */
  function Next<Row>(s: State<Row>, e: Event): State<Row> {
    if Enabled(s, e) then Step(s, e) else s
  }

  /** The run of `events` from `s`. */
  function Run<Row>(s: State<Row>, events: seq<Event>): State<Row>
    decreases |events|
  {
    if events == [] then s
    else Run(Next(s, events[0]), events[1..])
  }

  // ----- every row is in exactly one place, in order -----

  function Held<Row>(s: State<Row>): seq<Row> {
    if s.consumer.Holding? then [s.consumer.row] else []
  }

  function Batch<Row>(s: State<Row>): seq<Row> {
    if s.producer.Sending? then s.producer.batch else []
  }

  function Rows<Row>(s: State<Row>): seq<Row> {
    s.yielded + s.dropped + Held(s) + s.channel + Batch(s) + s.unfetched
  }

  predicate HasReturned<Row>(s: State<Row>) { s.consumer.Returned? }

  predicate ReturnedEarly<Row>(s: State<Row>) {
    HasReturned(s) && s.consumer.how != Exhausted
  }

  /** The quit signals that the consumer has sent. */
  function Sent<Row>(s: State<Row>): nat {
    match s.consumer
    case Returned(StoppedEarly) => 2
    case Returned(_) => 1
    case _ => 0
  }

  predicate ProducerEnds<Row>(s: State<Row>) { s.producer.Closing? || s.producer.Closed? }

  predicate Inv<Row>(s: State<Row>) {
    && (s.producer.Sending? ==> 0 < |s.producer.batch| <= CAPACITY)
    && |s.channel| <= CAPACITY
    && (s.consumer.ClosingCursor? || s.consumer.Committing? || s.consumer == Returned(Exhausted) ==>
          s.producer.Closed? && s.channel == [])
    && (s.quits > 0 ==> HasReturned(s)) && s.quits <= 2
    && (ReturnedEarly(s) && !s.producer.Closing? && !s.producer.Closed? ==> s.quits > 0)
    && (s.dropped != [] ==> s.consumer == Returned(Cancelled))
    && (s.fetchFailed ==> s.producer.Closing? || s.producer.Closed?)
    && (s.producer.Closing? || s.producer.Closed? ==> s.fetchFailed || s.unfetched == [] || ReturnedEarly(s))
    && (ReturnedEarly(s) ==> s.yielded + s.dropped != [])
    && (s.errorsSeen > 0 ==> s.fetchFailed || Unusable(s))
    && (s.cancelled || s.consumer != Returned(Cancelled))
    && (s.aborted ==> s.fetchFailed)
    && (s.aborted && s.consumer.Committing? ==> s.errorsSeen >= 1)
    && (s.aborted && s.consumer == Returned(Exhausted) ==> s.errorsSeen >= 2)
    && (s.stopped ==> HasReturned(s) || (s.consumer.Committing? && Unusable(s)))
    && (s.calledAfterStop <==> s.stopped && s.consumer == Returned(Exhausted))
    && (s.tx.EndedByIterator? ==> s.consumer == Returned(Exhausted))
    && (s.consumer == Returned(Exhausted) ==> !s.tx.Open?)
    && (s.own ==> !s.tx.EndedByCaller?)
    && s.quits <= Sent(s) <= s.quits + (if ProducerEnds(s) then 1 else 0)
    && (s.consumer == Returned(Exhausted) ==> s.quits == 1)
    && (ProducerEnds(s) && !s.fetchFailed && s.unfetched != [] ==> s.quits + 1 == Sent(s))
    && (s.consumer == Returned(StoppedEarly) ==> s.stopped)
  }

  predicate IsConsumers(e: Event) { e.Receive? || e.Yield? || e.CloseCursor? || e.Commit? }

  lemma ConsumerKeepsInv<Row>(s: State<Row>, e: Event)
    requires Inv(s) && Enabled(s, e) && IsConsumers(e)
    ensures Inv(Step(s, e))
  {
  }

  lemma ProducerKeepsInv<Row>(s: State<Row>, e: Event)
    requires Inv(s) && Enabled(s, e) && !IsConsumers(e)
    ensures Inv(Step(s, e))
  {
  }

  lemma StepKeepsInv<Row>(s: State<Row>, e: Event)
    requires Inv(s) && Enabled(s, e)
    ensures Inv(Step(s, e))
  {
    if IsConsumers(e) { ConsumerKeepsInv(s, e); } else { ProducerKeepsInv(s, e); }
  }

  lemma NextKeepsInv<Row>(s: State<Row>, e: Event)
    requires Inv(s)
    ensures Inv(Next(s, e))
  {
    if Enabled(s, e) { StepKeepsInv(s, e); }
  }

  lemma StepConserves<Row>(s: State<Row>, e: Event)
    requires Inv(s) && Enabled(s, e)
    ensures Rows(Step(s, e)) == Rows(s)
  {
    match e
    case Fetch(outcome) => FetchConserves(s, outcome);
    case Send => SendConserves(s);
    case Receive => ReceiveConserves(s);
    case Yield(continues) => YieldConserves(s, continues);
    case _ =>
  }

  lemma FetchConserves<Row>(s: State<Row>, outcome: Outcome)
    requires Inv(s) && Enabled(s, Fetch(outcome))
    ensures Rows(Step(s, Fetch(outcome))) == Rows(s)
  {
    var n := Min(CAPACITY, |s.unfetched|);
    var sent := s.yielded + s.dropped + Held(s) + s.channel;
    Regroup(sent, [], s.unfetched, s.unfetched[..n], s.unfetched[n..]);
  }

  lemma SendConserves<Row>(s: State<Row>)
    requires Inv(s) && Enabled(s, Send)
    ensures Rows(Step(s, Send)) == Rows(s)
  {
    var batch := s.producer.batch;
    Regroup(s.yielded + s.dropped + Held(s), s.channel, batch, s.channel + [batch[0]], batch[1..]);
    assert Batch(Step(s, Send)) == batch[1..];
  }

  lemma ReceiveConserves<Row>(s: State<Row>)
    requires Inv(s) && Enabled(s, Receive)
    ensures Rows(Step(s, Receive)) == Rows(s)
  {
    if s.channel != [] {
      assert s.channel == [s.channel[0]] + s.channel[1..];
      Regroup(s.yielded + s.dropped, [], s.channel, [s.channel[0]], s.channel[1..]);
    }
  }

  lemma YieldConserves<Row>(s: State<Row>, continues: bool)
    requires Inv(s) && Enabled(s, Yield(continues))
    ensures Rows(Step(s, Yield(continues))) == Rows(s)
  {
    assert s.dropped == [];
    assert s.yielded + [] + Held(s) == s.yielded + Held(s) + [] + [];
  }

  lemma Regroup<Row>(before: seq<Row>, a: seq<Row>, b: seq<Row>, c: seq<Row>, d: seq<Row>)
    requires a + b == c + d
    ensures before + a + b == before + c + d
  {
    assert before + a + b == before + (a + b);
    assert before + c + d == before + (c + d);
  }

  /** At every step: rows yielded, dropped, held, in the channel, still to send and unfetched are the cursor's rows. */
  lemma {:induction false} RunConserves<Row>(s: State<Row>, events: seq<Event>)
    requires Inv(s)
    ensures Inv(Run(s, events)) && Rows(Run(s, events)) == Rows(s)
    decreases |events|
  {
    if events == [] {
    } else {
      if Enabled(s, events[0]) {
        StepKeepsInv(s, events[0]);
        StepConserves(s, events[0]);
      }
      RunConserves(Next(s, events[0]), events[1..]);
    }
  }

  lemma FromStart<Row>(rows: seq<Row>, own: bool, events: seq<Event>)
    ensures var s := Run(Start(rows, own), events);
            Inv(s) && Rows(s) == rows
  {
    RunConserves(Start(rows, own), events);
  }

  /**
   Whatever happens, the caller has seen a prefix of the cursor's rows; CLOSE and Commit use the transaction only
   after the producer closed the channel; and sending a quit signal never blocks, as the quit channel holds two. All
   signals wait there until the producer has taken one, after which it ends; it also ends without, if there are no rows
   left or a fetch failed.
   */
  lemma CallerSeesPrefix<Row>(rows: seq<Row>, own: bool, events: seq<Event>)
    ensures var s := Run(Start(rows, own), events);
            && s.yielded <= rows
            && (s.consumer.ClosingCursor? || s.consumer.Committing? ==> s.producer.Closed?)
            && s.quits <= Sent(s) <= 2
            && (!ProducerEnds(s) ==> s.quits == Sent(s))
            && (ProducerEnds(s) && s.unfetched != [] && !s.fetchFailed ==> s.quits == Sent(s) - 1)
            && (s.consumer == Returned(Exhausted) ==> s.quits == 1)
  {
    FromStart(rows, own, events);
    YieldedIsPrefix(Run(Start(rows, own), events));
  }

  lemma YieldedIsPrefix<Row>(s: State<Row>)
    ensures s.yielded <= Rows(s)
  {
    assert Rows(s)[..|s.yielded|] == s.yielded;
  }

  // ----- a consumer that never stops -----

  predicate Benign(e: Event) {
    match e
    case Fetch(outcome) => outcome == Delivered
    case Yield(continues) => continues
    case CloseCursor(continues) => continues
    case Cancel => false
    case EndTransaction => false
    case _ => true
  }

  /** `events` is a run in which every event happens. */
  predicate IsRun<Row>(s: State<Row>, events: seq<Event>)
    decreases |events|
  {
    events == [] || (Enabled(s, events[0]) && IsRun(Step(s, events[0]), events[1..]))
  }

  predicate AllBenign(events: seq<Event>) { forall k :: 0 <= k < |events| ==> Benign(events[k]) }

  function Measure<Row>(s: State<Row>): nat {
    5 * |s.unfetched| + 2 * |s.channel|
    + (match s.producer
       case Selecting => 4
       case Fetching => 3
       case Sending(batch) => 4 + 3 * |batch|
       case Closing => 1
       case Closed => 0)
    + (match s.consumer
       case Ranging => 3
       case Holding(_) => 4
       case ClosingCursor => 2
       case Committing => 1
       case Returned(_) => 0)
  }

  predicate Undisturbed<Row>(s: State<Row>) {
    !s.fetchFailed && !Unusable(s) && (HasReturned(s) ==> s.consumer.how == Exhausted)
  }

  lemma BenignStep<Row>(s: State<Row>, e: Event)
    requires Inv(s) && Undisturbed(s) && Enabled(s, e) && Benign(e)
    ensures Undisturbed(Step(s, e)) && Measure(Step(s, e)) < Measure(s)
  {
  }

  lemma {:induction false} BenignRun<Row>(s: State<Row>, events: seq<Event>)
    requires Inv(s) && Undisturbed(s) && IsRun(s, events) && AllBenign(events)
    ensures Undisturbed(Run(s, events)) && Measure(Run(s, events)) + |events| <= Measure(s)
    decreases |events|
  {
    if events == [] {
    } else {
      assert Benign(events[0]);
      StepKeepsInv(s, events[0]);
      BenignStep(s, events[0]);
      BenignRun(Step(s, events[0]), events[1..]);
    }
  }

  /** Some benign event is enabled until the consumer has returned. */
  function NextBenign<Row>(s: State<Row>): (e: Event)
    requires Inv(s) && Undisturbed(s) && !HasReturned(s)
    ensures Benign(e) && Enabled(s, e)
  {
    match s.consumer
    case Holding(_) => Yield(true)
    case ClosingCursor => CloseCursor(true)
    case Committing => Commit
    case Ranging =>
      if s.channel != [] then Receive
      else
        match s.producer
        case Selecting => Select
        case Fetching => Fetch(Delivered)
        case Sending(_) => Send
        case Closing => CloseChannel
        case Closed => Receive
  }

  /**
   Without fetch error, cancellation or early stop, every schedule is finite, can be continued until the consumer
   returns, and then the caller has seen each row exactly once, in order and without error, and the transaction is
   committed, the caller's own one too.
   */
  lemma FullIteration<Row>(rows: seq<Row>, own: bool, events: seq<Event>)
    requires IsRun(Start(rows, own), events) && AllBenign(events)
    ensures var s := Run(Start(rows, own), events);
            && |events| <= 5 * |rows| + 7
            && (if HasReturned(s) then s.yielded == rows && s.errorsSeen == 0 && s.tx == EndedByIterator
                else exists e: Event :: Benign(e) && Enabled(s, e))
  {
    BenignRun(Start(rows, own), events);
    FromStart(rows, own, events);
    var s := Run(Start(rows, own), events);
    if !HasReturned(s) {
      assert Benign(NextBenign(s)) && Enabled(s, NextBenign(s));
    }
  }

  // ----- fetch errors -----

  /**
   An exhausted iteration has yielded everything the cursor delivered; rows are missing only after a fetch error, and
   without any error reported only after rows that did not fit the entity.
   */
  lemma ExhaustedWithoutFetchErrorIsComplete<Row>(rows: seq<Row>, own: bool, events: seq<Event>)
    requires Run(Start(rows, own), events).consumer == Returned(Exhausted)
    ensures var s := Run(Start(rows, own), events);
            && s.yielded + s.unfetched == rows
            && (!s.fetchFailed ==> s.yielded == rows)
            && (s.errorsSeen == 0 ==> s.yielded == rows || (s.fetchFailed && !s.aborted))
  {
    FromStart(rows, own, events);
  }

  /** The errors of CLOSE and Commit that are still to come in an aborted transaction. */
  function ErrorsAtTheEnd<Row>(s: State<Row>): nat {
    if !s.aborted then 0 else
      match s.consumer
      case Committing => 1
      case Returned(_) => 0
      case _ => 2
  }

  function ErrorsToCome<Row>(s: State<Row>): nat { |Held(s)| + |s.channel| + ErrorsAtTheEnd(s) }

  lemma ErrorsStep<Row>(s: State<Row>, e: Event)
    requires Inv(s) && s.fetchFailed && !HasReturned(s) && !s.cancelled && s.tx.Open?
    requires Enabled(s, e) && Benign(e)
    ensures var t := Step(s, e);
            && t.fetchFailed && !t.cancelled && (HasReturned(t) || t.tx.Open?)
            && t.errorsSeen + ErrorsToCome(t) == s.errorsSeen + ErrorsToCome(s)
            && (HasReturned(t) ==> ErrorsToCome(t) == 0)
  {
  }

  /**
   A consumer that goes on to the end meets the fetch error once for every row that was still on its way, and in an
   aborted transaction the errors of CLOSE and Commit.
   */
  lemma {:induction false} ErrorsAfterFailedFetch<Row>(s: State<Row>, events: seq<Event>)
    requires Inv(s) && s.fetchFailed && !HasReturned(s) && !s.cancelled && s.tx.Open?
    requires IsRun(s, events) && AllBenign(events) && HasReturned(Run(s, events))
    ensures Run(s, events).errorsSeen == s.errorsSeen + ErrorsToCome(s)
    decreases |events|
  {
    if events == [] {
      assert false;
    } else {
      assert Benign(events[0]);
      var t := Step(s, events[0]);
      StepKeepsInv(s, events[0]);
      ErrorsStep(s, events[0]);
      if HasReturned(t) {
        ReturnedStays(t, events[1..]);
      } else {
        ErrorsAfterFailedFetch(t, events[1..]);
      }
    }
  }

  lemma ReturnedLasts<Row>(s: State<Row>, e: Event)
    requires HasReturned(s)
    ensures Next(s, e).consumer == s.consumer && Next(s, e).errorsSeen == s.errorsSeen
  {
    if e.Yield? || e.CloseCursor? || e.Receive? || e.Commit? { assert !Enabled(s, e); }
  }

  lemma EndLasts<Row>(s: State<Row>, e: Event)
    requires !s.tx.Open?
    ensures !Next(s, e).tx.Open?
  {
    if Enabled(s, e) {
      match e
      case Commit => assert !Step(s, e).tx.Open?;
      case EndTransaction => assert false;
      case Select => assert Step(s, e).tx == s.tx;
      case Fetch(_) => assert Step(s, e).tx == s.tx;
      case Yield(_) => assert Step(s, e).tx == s.tx;
      case _ => assert Step(s, e).tx == s.tx;
    }
  }

  lemma OwnLasts<Row>(s: State<Row>, e: Event)
    ensures Next(s, e).own == s.own
  {
    if Enabled(s, e) {
      match e
      case Select => assert Step(s, e).own == s.own;
      case Fetch(_) => assert Step(s, e).own == s.own;
      case Yield(_) => assert Step(s, e).own == s.own;
      case CloseCursor(_) => assert Step(s, e).own == s.own;
      case _ => assert Step(s, e).own == s.own;
    }
  }

  lemma {:induction false} ReturnedStays<Row>(s: State<Row>, events: seq<Event>)
    requires HasReturned(s)
    ensures Run(s, events).errorsSeen == s.errorsSeen && Run(s, events).consumer == s.consumer
    decreases |events|
  {
    if events == [] {
    } else {
      ReturnedLasts(s, events[0]);
      ReturnedStays(Next(s, events[0]), events[1..]);
    }
  }

  /**
   A full iteration is told about a failed FETCH exactly if the transaction is aborted by it, or rows were in the
   channel or in the consumer's hand at that time. Otherwise the iteration ends early and looks complete.
   */
  lemma FetchErrorIsReportedIff<Row>(s: State<Row>, outcome: Outcome, events: seq<Event>)
    requires Inv(s) && Undisturbed(s) && Enabled(s, Fetch(outcome)) && outcome != Delivered && s.tx.Open?
    requires IsRun(Step(s, Fetch(outcome)), events) && AllBenign(events)
    requires HasReturned(Run(Step(s, Fetch(outcome)), events))
    ensures var errors := Run(Step(s, Fetch(outcome)), events).errorsSeen;
            && errors == |Held(s)| + |s.channel| + (if outcome == Refused then 2 else 0)
            && (errors > 0 <==> outcome == Refused || Held(s) + s.channel != [])
  {
    StepKeepsInv(s, Fetch(outcome));
    ErrorsAfterFailedFetch(Step(s, Fetch(outcome)), events);
  }

  /** For any rows: if the first batch does not fit the entity, no row is seen and no error, and Commit succeeds. */
  lemma SilentTruncation<Row>(rows: seq<Row>, own: bool)
    requires rows != []
    ensures exists events: seq<Event> ::
              var s := Run(Start(rows, own), events);
              && s.consumer == Returned(Exhausted) && s.yielded == [] && s.errorsSeen == 0
              && s.unfetched == rows && s.tx == EndedByIterator
  {
    var s0 := Start(rows, own);
    var s1 := Step(s0, Select);
    var s2 := Step(s1, Fetch(Unscannable));
    var s3 := Step(s2, CloseChannel);
    var s4 := Step(s3, Receive);
    var s5 := Step(s4, CloseCursor(true));
    var s6 := Step(s5, Commit);
    var events := [Select, Fetch(Unscannable), CloseChannel, Receive, CloseCursor(true), Commit];
    assert Run(s5, [Commit]) == Run(s6, []);
    assert Run(s4, [CloseCursor(true), Commit]) == s6;
    assert Run(s3, [Receive, CloseCursor(true), Commit]) == s6;
    assert Run(s2, [CloseChannel, Receive, CloseCursor(true), Commit]) == s6;
    assert Run(s1, [Fetch(Unscannable), CloseChannel, Receive, CloseCursor(true), Commit]) == s6;
    assert events[1..] == [Fetch(Unscannable), CloseChannel, Receive, CloseCursor(true), Commit];
    assert Run(s0, events) == s6;
  }

  // ----- the transaction -----

  /** The event happens in the run. */
  predicate Happens<Row>(s: State<Row>, events: seq<Event>, e: Event)
    decreases |events|
  {
    events != []
    && ((Enabled(s, events[0]) && events[0] == e)
        || Happens(Next(s, events[0]), events[1..], e))
  }

  /** What one event does to the consumer, the transaction and the answers of the caller's function. */
  lemma ConsumerStep<Row>(s: State<Row>, e: Event)
    requires Inv(s)
    ensures var t := Next(s, e);
            && (HasReturned(s) ==> t.consumer == s.consumer && t.stopped == s.stopped)
            && (!HasReturned(s) ==> (Enabled(s, e) && e.Commit? <==> t.consumer == Returned(Exhausted)))
            && (s.tx.Open? ==> (t.tx.Open? <==> !Enabled(s, e) || (e != Commit && e != EndTransaction)))
            && (s.consumer.Committing? ==>
                  t.stopped == s.stopped && (t.consumer.Committing? || t.consumer == Returned(Exhausted)))
            && (t.consumer.Committing? && !s.consumer.Committing? ==>
                  Enabled(s, e) && e.CloseCursor? && t.stopped == !e.continues)
            && (e.CloseCursor? && Enabled(s, e) ==> t.consumer.Committing? && s.consumer.ClosingCursor?)
  {
    assert e.CloseCursor? && Enabled(s, e) && !Unusable(s) ==> !s.stopped && e.continues;
  }

  /** After the iterator has returned, it sends no CLOSE and no Commit. */
  lemma {:induction false} ReturnedNeverCloses<Row>(s: State<Row>, events: seq<Event>)
    requires HasReturned(s)
    ensures !Happens(s, events, CloseCursor(true)) && !Happens(s, events, CloseCursor(false))
    ensures !Happens(s, events, Commit)
    decreases |events|
  {
    if events == [] {
    } else {
      ReturnedLasts(s, events[0]);
      ReturnedNeverCloses(Next(s, events[0]), events[1..]);
    }
  }

  lemma {:induction false} CommitHappensIff<Row>(s: State<Row>, events: seq<Event>)
    requires Inv(s) && !HasReturned(s)
    ensures Happens(s, events, Commit) <==> Run(s, events).consumer == Returned(Exhausted)
    decreases |events|
  {
    if events == [] {
    } else {
      var next := Next(s, events[0]);
      ConsumerStep(s, events[0]);
      NextKeepsInv(s, events[0]);
      if HasReturned(next) {
        ReturnedStays(next, events[1..]);
        ReturnedNeverCloses(next, events[1..]);
      } else {
        CommitHappensIff(next, events[1..]);
      }
    }
  }

  /** A transaction is open exactly as long as neither the caller has ended it nor the iterator has sent Commit. */
  lemma {:induction false} TransactionIsOpenIff<Row>(s: State<Row>, events: seq<Event>)
    requires Inv(s) && s.tx.Open?
    ensures Run(s, events).tx.Open? <==> !Happens(s, events, EndTransaction) && !Happens(s, events, Commit)
    decreases |events|
  {
    if events == [] {
    } else {
      var next := Next(s, events[0]);
      ConsumerStep(s, events[0]);
      NextKeepsInv(s, events[0]);
      if next.tx.Open? {
        TransactionIsOpenIff(next, events[1..]);
      } else {
        EndedStays(next, events[1..]);
      }
    }
  }

  lemma {:induction false} EndedStays<Row>(s: State<Row>, events: seq<Event>)
    requires !s.tx.Open?
    ensures !Run(s, events).tx.Open?
    decreases |events|
  {
    if events == [] {
    } else {
      EndLasts(s, events[0]);
      EndedStays(Next(s, events[0]), events[1..]);
    }
  }

  lemma {:induction false} OwnIsNotTheCallers<Row>(s: State<Row>, events: seq<Event>)
    requires s.own
    ensures !Happens(s, events, EndTransaction)
    decreases |events|
  {
    if events == [] {
    } else {
      OwnLasts(s, events[0]);
      OwnIsNotTheCallers(Next(s, events[0]), events[1..]);
    }
  }

  /**
   Over all runs: Commit is sent only when the producer is done, the channel is drained and all fetched rows were
   yielded. Once the caller's loop has ended, the transaction is open at all later times exactly after an early stop
   or a cancellation, unless it is the caller's and the caller ends it: one that the iterator began itself stays open
   for good, and after an exhausted iteration the caller's transaction is ended for the caller.
   */
  lemma TransactionStaysOpenIff<Row>(rows: seq<Row>, own: bool, events: seq<Event>, more: seq<Event>)
    ensures var s := Run(Start(rows, own), events);
            && (Happens(Start(rows, own), events, Commit) ==>
                  s.producer.Closed? && s.channel == [] && s.yielded + s.unfetched == rows)
            && (HasReturned(s) ==>
                  (Run(s, more).tx.Open? <==>
                     ReturnedEarly(s) && !Happens(Start(rows, own), events + more, EndTransaction)))
            && (own ==> !Happens(Start(rows, own), events + more, EndTransaction))
  {
    var s := Run(Start(rows, own), events);
    FromStart(rows, own, events);
    CommitHappensIff(Start(rows, own), events);
    if own { OwnIsNotTheCallers(Start(rows, own), events + more); }
    if HasReturned(s) {
      RunAppend(Start(rows, own), events, more);
      CommitHappensIff(Start(rows, own), events + more);
      TransactionIsOpenIff(Start(rows, own), events + more);
      ReturnedStays(s, more);
    }
  }

  // ----- cancellation -----

  lemma CancelLasts<Row>(s: State<Row>, e: Event)
    ensures var t := Next(s, e);
            && (t.cancelled <==> s.cancelled || (Enabled(s, e) && e == Cancel))
            && (s.cancelled ==> t.yielded == s.yielded && |t.dropped| - |s.dropped| <= t.errorsSeen - s.errorsSeen)
  {
    if Enabled(s, e) {
      match e
      case Fetch(_) => assert Step(s, e).cancelled == s.cancelled;
      case Yield(_) => assert Step(s, e).cancelled == s.cancelled;
      case CloseCursor(_) => assert Step(s, e).cancelled == s.cancelled;
      case Commit => assert Step(s, e).cancelled == s.cancelled;
      case Cancel => assert Step(s, e).cancelled;
      case _ => assert Step(s, e).cancelled == s.cancelled;
    }
  }

  lemma {:induction false} CancelledIff<Row>(s: State<Row>, events: seq<Event>)
    ensures Run(s, events).cancelled <==> s.cancelled || Happens(s, events, Cancel)
    decreases |events|
  {
    if events == [] {
    } else {
      CancelLasts(s, events[0]);
      CancelledIff(Next(s, events[0]), events[1..]);
    }
  }

  lemma {:induction false} CancelledSeesNoMore<Row>(s: State<Row>, events: seq<Event>)
    requires s.cancelled
    ensures var t := Run(s, events);
            t.yielded == s.yielded && |t.dropped| - |s.dropped| <= t.errorsSeen - s.errorsSeen
    decreases |events|
  {
    if events == [] {
    } else {
      CancelLasts(s, events[0]);
      CancelledSeesNoMore(Next(s, events[0]), events[1..]);
    }
  }

  /** Over every run: once the context is done the caller sees no further row, and an error for each that is dropped. */
  lemma NoRowAfterCancel<Row>(rows: seq<Row>, own: bool, events: seq<Event>, more: seq<Event>)
    requires Happens(Start(rows, own), events, Cancel)
    ensures var s, t := Run(Start(rows, own), events), Run(Start(rows, own), events + more);
            t.yielded == s.yielded && |t.dropped| - |s.dropped| <= t.errorsSeen - s.errorsSeen
  {
    CancelledIff(Start(rows, own), events);
    RunAppend(Start(rows, own), events, more);
    CancelledSeesNoMore(Run(Start(rows, own), events), more);
  }

  lemma RunThree<Row>(s: State<Row>, a: Event, b: Event, c: Event)
    ensures Run(s, [a, b, c]) == Next(Next(Next(s, a), b), c)
  {
    assert [a, b, c][1..] == [b, c] && [b, c][1..] == [c];
    assert Run(Next(Next(s, a), b), [c]) == Run(Next(Next(Next(s, a), b), c), []);
  }

  /** It can be done at any time: whatever the rows, the first one can be lost to it, with one error for the caller. */
  lemma CancelledExample<Row>(rows: seq<Row>, own: bool)
    requires rows != []
    ensures exists events: seq<Event> ::
              var s := Run(Start(rows, own), events);
              s.consumer == Returned(Cancelled) && s.yielded == [] && s.dropped == rows[..1] && s.errorsSeen == 1
  {
    var first, second := [Select, Fetch(Delivered), Send], [Receive, Cancel, Yield(true)];
    RunAppend(Start(rows, own), first, second);
    RunThree(Start(rows, own), Select, Fetch(Delivered), Send);
    var s := Run(Start(rows, own), first);
    assert s.consumer.Ranging? && s.channel == rows[..1] && !s.fetchFailed && s.yielded == s.dropped == [];
    RunThree(s, Receive, Cancel, Yield(true));
    assert Run(Start(rows, own), first + second).dropped == rows[..1];
  }

  // ----- calls of a function that has returned false -----

  lemma {:induction false} StoppedAtCloseIff<Row>(s: State<Row>, events: seq<Event>)
    requires Inv(s) && !HasReturned(s) && !s.consumer.Committing?
    ensures Happens(s, events, CloseCursor(false)) <==>
              (var t := Run(s, events);
               t.stopped && (t.consumer.Committing? || t.consumer == Returned(Exhausted)))
    decreases |events|
  {
    if events == [] {
    } else {
      var next := Next(s, events[0]);
      ConsumerStep(s, events[0]);
      NextKeepsInv(s, events[0]);
      if HasReturned(next) || next.consumer.Committing? {
        StopIsKept(next, events[1..]);
      } else {
        StoppedAtCloseIff(next, events[1..]);
      }
    }
  }

  /** From CLOSE on nothing changes what the function has said. */
  lemma {:induction false} StopIsKept<Row>(s: State<Row>, events: seq<Event>)
    requires Inv(s) && (HasReturned(s) || s.consumer.Committing?)
    ensures var t := Run(s, events);
            && t.stopped == s.stopped
            && (HasReturned(s) ==> t.consumer == s.consumer)
            && (s.consumer.Committing? ==> t.consumer.Committing? || t.consumer == Returned(Exhausted))
            && !Happens(s, events, CloseCursor(false))
    decreases |events|
  {
    if events == [] {
    } else {
      ConsumerStep(s, events[0]);
      NextKeepsInv(s, events[0]);
      StopIsKept(Next(s, events[0]), events[1..]);
    }
  }

  /**
   Over all runs: the function that the rows are yielded to is called again after it has returned false exactly if it
   returned false at the error of CLOSE and Commit was sent, which then fails as well. Go panics at such a call of a
   loop body.
   */
  lemma CalledAfterStopIff<Row>(rows: seq<Row>, own: bool, events: seq<Event>)
    ensures Run(Start(rows, own), events).calledAfterStop <==>
              && Happens(Start(rows, own), events, CloseCursor(false))
              && Happens(Start(rows, own), events, Commit)
  {
    FromStart(rows, own, events);
    CommitHappensIff(Start(rows, own), events);
    StoppedAtCloseIff(Start(rows, own), events);
  }

  // ----- an early stop and the producer's goroutine -----

  /** No continuation whatsoever ends the producer's goroutine. */
  ghost predicate BlockedForGood<Row>(s: State<Row>) {
    forall events: seq<Event> :: !Run(s, events).producer.Closed?
  }

  /**
   After an early stop or a cancellation the producer's goroutine is blocked for good exactly if it is sending more
   rows than the channel has room for; neither the context nor the quit channel can help it then.
   */
  lemma BlockedForGoodIff<Row>(s: State<Row>)
    requires Inv(s) && ReturnedEarly(s)
    ensures BlockedForGood(s) <==> s.producer.Sending? && |s.channel| + |s.producer.batch| > CAPACITY
  {
    if s.producer.Sending? && |s.channel| + |s.producer.batch| > CAPACITY {
      forall events: seq<Event> ensures !Run(s, events).producer.Closed? {
        StaysBlocked(s, events);
      }
    } else if s.producer.Fetching? {
      var t := Step(s, Fetch(Refused));
      StepKeepsInv(s, Fetch(Refused));
      var rest := Drain(t);
      var events := [Fetch(Refused)] + rest;
      assert events[1..] == rest;
      assert Run(s, events).producer.Closed?;
    } else {
      var events := Drain(s);
      assert Run(s, events).producer.Closed?;
    }
  }

  lemma {:induction false} StaysBlocked<Row>(s: State<Row>, events: seq<Event>)
    requires ReturnedEarly(s) && s.producer.Sending? && |s.channel| + |s.producer.batch| > CAPACITY
    ensures !Run(s, events).producer.Closed?
    decreases |events|
  {
    if events == [] {
    } else {
      StaysBlocked(Next(s, events[0]), events[1..]);
    }
  }

  /** The rows the producer has to send before it looks at the quit channel again, if its FETCH is not refused. */
  function Committed<Row>(s: State<Row>): seq<Row> {
    match s.producer
    case Sending(batch) => batch
    case Fetching => if Unusable(s) then [] else s.unfetched[..Min(CAPACITY, |s.unfetched|)]
    case _ => []
  }

  /** Nothing goes wrong that has not gone wrong before: only in an `unusable` transaction a FETCH fails. */
  predicate Healthy(unusable: bool, events: seq<Event>) {
    forall k :: 0 <= k < |events| ==>
      && events[k] != Cancel && events[k] != EndTransaction
      && (events[k].Fetch? ==> events[k].outcome == Delivered || unusable)
  }

  ghost predicate CanTerminate<Row>(s: State<Row>) {
    exists events: seq<Event> :: Healthy(Unusable(s), events) && Run(s, events).producer.Closed?
  }

  /**
   If after an early stop or a cancellation no FETCH fails that need not fail, the producer's goroutine can end
   exactly when the rows it is bound to send fit the channel.
   */
  lemma ProducerEndsIffRowsFit<Row>(s: State<Row>)
    requires Inv(s) && ReturnedEarly(s)
    ensures CanTerminate(s) <==> |s.channel| + |Committed(s)| <= CAPACITY
  {
    if |s.channel| + |Committed(s)| <= CAPACITY {
      var events := Drain(s);
      assert Healthy(Unusable(s), events) && Run(s, events).producer.Closed?;
    } else {
      forall events: seq<Event> | Healthy(Unusable(s), events) ensures !Run(s, events).producer.Closed? {
        HealthyStaysBlocked(s, events);
      }
    }
  }

  lemma {:induction false} HealthyStaysBlocked<Row>(s: State<Row>, events: seq<Event>)
    requires Inv(s) && ReturnedEarly(s) && Healthy(Unusable(s), events)
    requires |s.channel| + |Committed(s)| > CAPACITY
    ensures !Run(s, events).producer.Closed?
    decreases |events|
  {
    if s.producer.Sending? {
      StaysBlocked(s, events);
    } else if events != [] {
      var e := events[0];
      assert Healthy(Unusable(s), [e]) && Healthy(Unusable(s), events[1..]);
      if Enabled(s, e) { StepKeepsInv(s, e); }
      HealthyStaysBlocked(if Enabled(s, e) then Step(s, e) else s, events[1..]);
    }
  }

  function ProducerRank<Row>(s: State<Row>): nat {
    match s.producer
    case Fetching => 5 + |Committed(s)|
    case Sending(batch) => 3 + |batch|
    case Selecting => 2
    case Closing => 1
    case Closed => 0
  }

  function ProducerEvent<Row>(s: State<Row>): Event {
    match s.producer
    case Fetching => Fetch(if Unusable(s) then Refused else Delivered)
    case Sending(_) => Send
    case Selecting => Select
    case _ => CloseChannel
  }

  /** The producer's remaining steps after an early stop. */
  lemma {:induction false} Drain<Row>(s: State<Row>) returns (events: seq<Event>)
    requires Inv(s) && ReturnedEarly(s) && |s.channel| + |Committed(s)| <= CAPACITY
    ensures Healthy(Unusable(s), events) && Run(s, events).producer.Closed?
    decreases ProducerRank(s)
  {
    if s.producer.Closed? {
      events := [];
    } else {
      var e := ProducerEvent(s);
      StepKeepsInv(s, e);
      var rest := Drain(Step(s, e));
      events := [e] + rest;
      assert events[1..] == rest;
    }
  }

  lemma {:induction false} RunAppend<Row>(s: State<Row>, a: seq<Event>, b: seq<Event>)
    ensures Run(s, a + b) == Run(Run(s, a), b)
    decreases |a|
  {
    if a == [] {
      assert a + b == b;
    } else {
      assert (a + b)[0] == a[0] && (a + b)[1..] == a[1..] + b;
      RunAppend(Next(s, a[0]), a[1..], b);
    }
  }

  /** Sending a whole batch that fits the channel. */
  lemma {:induction false} SendBatch<Row>(s: State<Row>) returns (events: seq<Event>)
    requires s.producer.Sending? && s.producer.batch != []
    requires |s.channel| + |s.producer.batch| <= CAPACITY
    ensures Run(s, events) == s.(channel := s.channel + s.producer.batch, producer := Selecting)
    decreases |s.producer.batch|
  {
    var batch := s.producer.batch;
    var t := Step(s, Send);
    assert s.channel + batch == t.channel + batch[1..];
    if |batch| == 1 {
      events := [Send];
      assert Run(t, []) == t;
    } else {
      var rest := SendBatch(t);
      events := [Send] + rest;
      assert events[1..] == rest;
    }
  }

  ghost predicate Leaks<Row>(rows: seq<Row>, own: bool, events: seq<Event>) {
    ReturnedEarly(Run(Start(rows, own), events)) && BlockedForGood(Run(Start(rows, own), events))
  }

  /**
   An early stop can leave the producer's goroutine blocked for good exactly when the cursor has at least two rows
   more than the thousand that the channel holds.
   */
  lemma EarlyStopCanLeakIffTwoMoreThanCapacity<Row>(rows: seq<Row>, own: bool)
    ensures |rows| >= 1002 <==> exists events: seq<Event> :: Leaks(rows, own, events)
  {
    if |rows| >= CAPACITY + 2 {
      var events := Leak(rows, own);
      assert Leaks(rows, own, events);
    } else {
      forall events: seq<Event> | ReturnedEarly(Run(Start(rows, own), events))
        ensures !Leaks(rows, own, events)
      {
        FromStart(rows, own, events);
        var s := Run(Start(rows, own), events);
        assert |rows| == |s.yielded + s.dropped| + |Held(s)| + |s.channel| + |Batch(s)| + |s.unfetched|;
        BlockedForGoodIff(s);
      }
    }
  }

  /** The consumer takes one row of a full channel and stops while the second batch is being sent. */
  lemma Leak<Row>(rows: seq<Row>, own: bool) returns (events: seq<Event>)
    requires |rows| >= CAPACITY + 2
    ensures Leaks(rows, own, events)
  {
    var s0 := Start(rows, own);
    var s1 := Step(s0, Select);
    var s2 := Step(s1, Fetch(Delivered));
    var sends := SendBatch(s2);
    var s3 := Run(s2, sends);
    var s4 := Step(s3, Select);
    var s5 := Step(s4, Fetch(Delivered));
    var s6 := Step(s5, Receive);
    var s7 := Step(s6, Yield(false));
    var tail := [Select, Fetch(Delivered), Receive, Yield(false)];
    assert Run(s6, [Yield(false)]) == Run(s7, []);
    assert Run(s5, [Receive, Yield(false)]) == s7;
    assert Run(s4, [Fetch(Delivered), Receive, Yield(false)]) == s7;
    assert tail[1..] == [Fetch(Delivered), Receive, Yield(false)];
    assert Run(s3, tail) == s7;
    RunAppend(s2, sends, tail);
    var rest := sends + tail;
    events := [Select, Fetch(Delivered)] + rest;
    assert events[1..][1..] == rest;
    assert Run(s1, events[1..]) == Run(s2, rest);
    FromStart(rows, own, events);
    BlockedForGoodIff(s7);
  }
}
