/**
 Every interleaving of the appending thread, the consumer and the finaliser (src/streaming/zarr.stream.cpp).  A step is one
 lock-held section or one unlocked action; the queue is the bounded FIFO that module FrameQueues refines.
 */
module Drain {
  import opened Bytes
  import opened FrameQueues
  import opened Answers
  import opened Appending

  datatype Producer = Ready | Asleep | Finished

  datatype Consumer =
    | Head                      // about to test whether to go on
    | Locked                    // holds the lock, waits while there is nothing to do
    | Popping
    | Writing(item: Item)
    | Notifying                 // about to signal that there is space
    | Leaving                   // out of the loop
    | Done

  datatype Finaliser = NotStarted | Stopped | Waited | Joined

  /** What append and write_frame check against: an array's frame size, and its size, 0 if it may grow. */
  datatype Limits = Limits(frameBytes: nat, maxBytes: nat)

  /** The last three are history: frames pushed and written, arrays finalised. */
  datatype State = State(
    arrays: map<string, Limits>,
    capacity: nat,
    queue: seq<Item>,
    processFrames: bool,
    producer: Producer,
    consumer: Consumer,
    finaliser: Finaliser,
    error: bool,
    pushed: seq<Item>,
    written: seq<Item>,
    finalized: set<string>)

  datatype Step =
    | Push(key: string, data: seq<Byte>)
    | Sleep
    | WakeProducer                        // spurious
    | EndOfInput
    | Test
    | Look
    | Pop
    | Write
    | Notify
    | Leave
    | Stop
    | EndWait
    | Join
    | FinalizeArray(key: string)

  function Init(arrays: map<string, Limits>, capacity: nat): State {
    State(arrays, capacity, [], true, Ready, Head, NotStarted, false, [], [], {})
  }

  /** A frame that append cuts for an array (lemma AppendOffers): of its frame size, and within its size. */
  predicate Fits(arrays: map<string, Limits>, item: Item) {
    && item.key in arrays && |item.data| == arrays[item.key].frameBytes
    && (arrays[item.key].maxBytes > 0 ==> (item.frameId + 1) * arrays[item.key].frameBytes <= arrays[item.key].maxBytes)
  }

  function Next(pushed: seq<Item>, key: string, data: seq<Byte>): Item {
    Item(key, data, |OfKey(pushed, key)|)
  }

  /** What the array of a frame answers after the frames written so far; none if there is no such array. */
  function Accepts(arrays: map<string, Limits>, written: seq<Item>, item: Item): bool {
    item.key in arrays
    && Answer(arrays[item.key].frameBytes, arrays[item.key].maxBytes, |OfKey(written, item.key)|, |item.data|, item.frameId) == Ok
  }

  predicate Enabled(s: State, step: Step) {
    match step
    case Push(key, data) => s.producer.Ready? && |s.queue| < s.capacity && Fits(s.arrays, Next(s.pushed, key, data))
    case Sleep => s.producer.Ready? && |s.queue| >= s.capacity && s.processFrames
    case WakeProducer => s.producer.Asleep?
    case EndOfInput => s.producer.Ready?
    case Test => s.consumer.Head?
    case Look => s.consumer.Locked?
    case Pop => s.consumer.Popping?
    case Write => s.consumer.Writing?
    case Notify => s.consumer.Notifying?
    case Leave => s.consumer.Leaving?
    case Stop => s.finaliser.NotStarted? && s.producer.Finished?
    case EndWait => s.finaliser.Stopped?          // the queue is empty, or an error, or the timeout
    case Join => s.finaliser.Waited? && s.consumer.Done?
    case FinalizeArray(_) => s.finaliser.Joined? && !s.error
  }

  function Apply(s: State, step: Step): State
    requires Enabled(s, step)
  {
    match step
    case Push(key, data) =>
      var item := Next(s.pushed, key, data);
      s.(queue := s.queue + [item], pushed := s.pushed + [item])
    case Sleep => s.(producer := Asleep)
    case WakeProducer => s.(producer := Ready)
    case EndOfInput => s.(producer := Finished)
    case Test => s.(consumer := if s.processFrames || s.queue != [] then Locked else Leaving)
    case Look =>
      if s.queue == [] && s.processFrames then s
      else if s.queue == [] then s.(consumer := Leaving)
      else s.(consumer := Popping)
    case Pop =>
      if s.queue == [] then s.(consumer := Head)
      else s.(queue := s.queue[1..], consumer := Writing(s.queue[0]))
    case Write =>
      var item := s.consumer.item;
      if Accepts(s.arrays, s.written, item) then s.(written := s.written + [item], consumer := Notifying)
      else s.(error := true, processFrames := false, queue := [], consumer := Done,
              producer := if s.producer.Asleep? then Ready else s.producer)
    case Notify => s.(consumer := Head, producer := if s.producer.Asleep? then Ready else s.producer)
    case Leave => s.(queue := [], consumer := Done)
    case Stop => s.(processFrames := false, finaliser := Stopped)
    case EndWait => s.(finaliser := Waited)
    case Join => s.(finaliser := Joined)
    case FinalizeArray(key) => s.(finalized := s.finalized + {key})
  }

  // ----- The invariant -------------------------------------------------------------------------------

  function InHand(c: Consumer): seq<Item> {
    if c.Writing? then [c.item] else []
  }

  /** Each frame carries the number of frames of its array before it. */
  ghost predicate Numbered(items: seq<Item>) {
    forall i :: 0 <= i < |items| ==> items[i].frameId == |OfKey(items[..i], items[i].key)|
  }

  ghost predicate Inv(s: State) {
    && s.capacity >= 1 && |s.queue| <= s.capacity && !s.error
    && s.pushed == s.written + InHand(s.consumer) + s.queue && Numbered(s.pushed)
    && (forall i :: 0 <= i < |s.pushed| ==> Fits(s.arrays, s.pushed[i]))
    && (!s.processFrames <==> !s.finaliser.NotStarted?)
    && (!s.finaliser.NotStarted? ==> s.producer.Finished?)
    && (s.consumer.Popping? ==> s.queue != [])
    && (s.consumer.Leaving? || s.consumer.Done? ==> !s.processFrames && s.queue == [])
    && (s.finaliser.Joined? ==> s.consumer.Done?)
    && (s.finalized != {} ==> s.finaliser.Joined?)
    && (s.producer.Asleep? ==> s.queue != [] || s.consumer.Writing? || s.consumer.Notifying?)
  }

  lemma InitInv(arrays: map<string, Limits>, capacity: nat)
    requires capacity >= 1
    ensures Inv(Init(arrays, capacity))
  {
  }

  /** The next frame to write is the next one of its array, which has room for it. */
  lemma NextInOrder(s: State)
    requires Inv(s) && s.consumer.Writing?
    ensures s.consumer.item.frameId == |OfKey(s.written, s.consumer.item.key)| && Fits(s.arrays, s.consumer.item)
    ensures Accepts(s.arrays, s.written, s.consumer.item)
  {
    var i, item := |s.written|, s.consumer.item;
    assert s.pushed[i] == item && s.pushed[..i] == s.written;
    assert Fits(s.arrays, s.pushed[i]);
    AcceptedInOrder(s.arrays[item.key].frameBytes, s.arrays[item.key].maxBytes, item.frameId, |item.data|, item.frameId);
  }

  /** What append queues for an array is what the machine lets it push: each frame fits, as the next of its array. */
  lemma AppendOffers(o: Output, arrays: map<string, Limits>, i: nat)
    requires o.Valid() && i < |o.pushed|
    requires o.key in arrays && arrays[o.key] == Limits(o.frameSizeBytes, o.maxArraySizeBytes)
    ensures Fits(arrays, o.pushed[i]) && o.pushed[i].frameId == i
  {
    QueuedFrames(o, i);
  }

  lemma NumberedPush(items: seq<Item>, item: Item)
    requires Numbered(items) && item.frameId == |OfKey(items, item.key)|
    ensures Numbered(items + [item])
  {
    var more := items + [item];
    forall i | 0 <= i < |more| ensures more[i].frameId == |OfKey(more[..i], more[i].key)| {
      assert more[..i] == items[..i];
      assert items[..|items|] == items;
    }
  }

  lemma StepInv(s: State, step: Step)
    requires Inv(s) && Enabled(s, step)
    ensures Inv(Apply(s, step))
  {
    match step
    case Push(key, data) => NumberedPush(s.pushed, Next(s.pushed, key, data));
    case Write => NextInOrder(s);
    case Pop => assert s.queue == [s.queue[0]] + s.queue[1..];
    case _ =>
  }

  ghost predicate IsRun(s: State, steps: seq<Step>)
    decreases |steps|
  {
    steps == [] || (Enabled(s, steps[0]) && IsRun(Apply(s, steps[0]), steps[1..]))
  }

  ghost function Outcome(s: State, steps: seq<Step>): State
    requires IsRun(s, steps)
    decreases |steps|
  {
    if steps == [] then s else Outcome(Apply(s, steps[0]), steps[1..])
  }

  lemma {:induction false} RunsKeepInv(s: State, steps: seq<Step>)
    requires Inv(s) && IsRun(s, steps)
    ensures Inv(Outcome(s, steps))
    decreases |steps|
  {
    if steps != [] {
      StepInv(s, steps[0]);
      RunsKeepInv(Apply(s, steps[0]), steps[1..]);
    }
  }

  lemma {:induction false} SettingsKept(s: State, steps: seq<Step>)
    requires IsRun(s, steps)
    ensures Outcome(s, steps).arrays == s.arrays && Outcome(s, steps).capacity == s.capacity
    decreases |steps|
  {
    if steps != [] {
      SettingsKept(Apply(s, steps[0]), steps[1..]);
    }
  }

  // ----- What follows ----------------------------------------------------------------------------------

  lemma {:induction false} IdsInOrder(items: seq<Item>, key: string, i: nat)
    requires Numbered(items) && i < |OfKey(items, key)|
    ensures OfKey(items, key)[i].frameId == i && OfKey(items, key)[i].key == key
  {
    var init := items[..|items| - 1];
    forall j | 0 <= j < |init| ensures init[j].frameId == |OfKey(init[..j], init[j].key)| {
      assert init[..j] == items[..j];
    }
    if i < |OfKey(init, key)| {
      IdsInOrder(init, key, i);
    }
  }

  /**
   After any run: no array has refused a frame, and once an array is finalised every frame ever queued, of every array, has
   been written exactly once, in the order of its ids.
   */
  lemma AllWrittenBeforeFinalize(arrays: map<string, Limits>, capacity: nat, steps: seq<Step>, key: string, i: nat)
    requires capacity >= 1 && IsRun(Init(arrays, capacity), steps)
    ensures var s := Outcome(Init(arrays, capacity), steps);
            && !s.error
            && (s.finalized != {} ==> s.written == s.pushed && s.queue == [])
            && (s.finalized != {} && i < |OfKey(s.pushed, key)| ==>
                  |OfKey(s.written, key)| > i && OfKey(s.written, key)[i] == OfKey(s.pushed, key)[i]
                  && OfKey(s.written, key)[i].frameId == i)
  {
    InitInv(arrays, capacity);
    RunsKeepInv(Init(arrays, capacity), steps);
    var s := Outcome(Init(arrays, capacity), steps);
    if s.finalized != {} {
      assert s.written + [] + [] == s.written;
      if i < |OfKey(s.pushed, key)| {
        IdsInOrder(s.pushed, key, i);
      }
    }
  }

  /** The finaliser's wait can end while the last frame is still being written. */
  lemma WaitCanEndEarly() returns (steps: seq<Step>)
    ensures IsRun(Init(map["" := Limits(0, 0)], 1), steps)
    ensures var s := Outcome(Init(map["" := Limits(0, 0)], 1), steps); s.finaliser.Waited? && s.consumer.Writing? && s.written == []
  {
    var a := Init(map["" := Limits(0, 0)], 1);
    var b := Apply(a, Push("", []));
    var c := Apply(b, Test);
    var d := Apply(c, Look);
    var e := Apply(d, Pop);
    var f := Apply(e, EndOfInput);
    var g := Apply(f, Stop);
    steps := [];
    steps := Prepend(g, EndWait, steps);
    steps := Prepend(f, Stop, steps);
    steps := Prepend(e, EndOfInput, steps);
    steps := Prepend(d, Pop, steps);
    steps := Prepend(c, Look, steps);
    steps := Prepend(b, Test, steps);
    steps := Prepend(a, Push("", []), steps);
  }

  lemma Prepend(s: State, step: Step, rest: seq<Step>) returns (steps: seq<Step>)
    requires Enabled(s, step) && IsRun(Apply(s, step), rest)
    ensures IsRun(s, steps) && Outcome(s, steps) == Outcome(Apply(s, step), rest)
  {
    steps := [step] + rest;
    RunStep(s, step, rest);
  }

  lemma RunStep(s: State, step: Step, rest: seq<Step>)
    requires Enabled(s, step) && IsRun(Apply(s, step), rest)
    ensures IsRun(s, [step] + rest) && Outcome(s, [step] + rest) == Outcome(Apply(s, step), rest)
  {
    assert ([step] + rest)[1..] == rest;
  }

  /** Steps the consumer can take. */
  predicate IsConsumer(step: Step) {
    step.Test? || step.Look? || step.Pop? || step.Write? || step.Notify? || step.Leave?
  }

  /** How many consumer steps until it next signals space, once there is a frame for it. */
  function UntilNotify(c: Consumer): nat {
    match c
    case Notifying => 1
    case Writing(_) => 2
    case Popping => 3
    case Locked => 4
    case Head => 5
    case _ => 6
  }

  /** A sleeping producer has a wake-up coming: each consumer step brings the signal nearer, and the signal wakes it. */
  lemma WakeUpPending(s: State, step: Step)
    requires Inv(s) && s.producer.Asleep? && Enabled(s, step)
    ensures !s.consumer.Leaving? && !s.consumer.Done?
    ensures IsConsumer(step) && !step.Notify? ==>
              Apply(s, step).producer.Asleep? && UntilNotify(Apply(s, step).consumer) < UntilNotify(s.consumer)
    ensures step.Notify? ==> Apply(s, step).producer.Ready?
    ensures !IsConsumer(step) ==>
              Apply(s, step).producer.Ready? || UntilNotify(Apply(s, step).consumer) == UntilNotify(s.consumer)
  {
    if step.Write? {
      NextInOrder(s);
    }
  }

  /** And some consumer step is always possible until it has left. */
  lemma ConsumerNeverStuck(s: State)
    requires Inv(s) && !s.consumer.Done?
    ensures exists step :: IsConsumer(step) && Enabled(s, step)
  {
    var step := match s.consumer
      case Head => Test
      case Locked => Look
      case Popping => Pop
      case Writing(_) => Write
      case Notifying => Notify
      case _ => Leave;
    assert IsConsumer(step) && Enabled(s, step);
  }

  /** Consumer steps left once nothing more is queued, at most. */
  function DrainWork(s: State): nat {
    5 * |s.queue| + match s.consumer
                    case Head => 3
                    case Locked => 2
                    case Popping => 1
                    case Writing(_) => 5
                    case Notifying => 4
                    case Leaving => 1
                    case Done => 0
  }

  /** Once the finaliser has stopped the stream every consumer step brings its end nearer and no other step moves it away: the join ends. */
  lemma DrainEnds(s: State, step: Step)
    requires Inv(s) && !s.processFrames && Enabled(s, step)
    ensures !Apply(s, step).processFrames
    ensures if IsConsumer(step) then DrainWork(Apply(s, step)) < DrainWork(s) else DrainWork(Apply(s, step)) == DrainWork(s)
    ensures DrainWork(s) == 0 ==> s.consumer.Done?
  {
    if step.Write? {
      NextInOrder(s);
    }
  }

  /** A frame can be pushed exactly while there is room for it, else the producer can go to sleep; and the finaliser always has its next step. */
  lemma OthersNeverStuck(s: State, key: string, data: seq<Byte>)
    requires Inv(s)
    ensures s.producer.Ready? && s.finaliser.NotStarted? && Fits(s.arrays, Next(s.pushed, key, data)) ==>
              if |s.queue| < s.capacity then Enabled(s, Push(key, data)) && !Enabled(s, Sleep)
              else !Enabled(s, Push(key, data)) && Enabled(s, Sleep)
    ensures s.producer.Finished? ==>
              match s.finaliser
              case NotStarted => Enabled(s, Stop)
              case Stopped => Enabled(s, EndWait)
              case Waited => s.consumer.Done? ==> Enabled(s, Join)
              case Joined => Enabled(s, FinalizeArray(key))
  {
  }
}
