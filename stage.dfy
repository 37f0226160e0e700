/**
  The pipeline stage of include/StageBase.h: two FIFO queues, a stop flag and a
  ready flag, and a worker that moves items from the input queue, through the
  stage's processor, to the output queue.

  The worker thread, the mutex and the sleeps are not modelled: one iteration of
  the worker loop is the method WorkerStep, which the caller invokes, so every
  interleaving of Post, Get and worker iterations is a sequence of method calls.
  In the source, Get, GetInFIFOSize and GetOutFIFOSize read the queues without
  taking the mutex the worker holds, a data race that a sequential model cannot
  show.
*/
module Stage {
  import opened Wrappers

  /** std::uint16_t, the return type of the queue-size getters. */
  newtype u16 = x: int | 0 <= x < 0x1_0000

  const U16_MODULUS: nat := 0x1_0000

  /** What one call of the processor adds to the output queue: nothing when it declines, its output when it accepts. */
  function Emitted<O>(r: Option<O>): (s: seq<O>)
    ensures |s| <= 1
    ensures r.None? <==> s == []
    ensures r.Some? ==> s[0] == r.value
  {
    match r
    case None => []
    case Some(v) => [v]
  }

  /** The outputs that the processor produces for `inputs`, taken in queue order. */
  function Accepted<I, O>(process: I -> Option<O>, inputs: seq<I>): seq<O>
  {
    if inputs == [] then [] else Emitted(process(inputs[0])) + Accepted(process, inputs[1..])
  }

  /** Processing two batches one after the other gives the outputs of the first followed by those of the second. */
  lemma {:induction false} AcceptedAppend<I, O>(process: I -> Option<O>, a: seq<I>, b: seq<I>)
    ensures Accepted(process, a + b) == Accepted(process, a) + Accepted(process, b)
  {
    if a == [] {
      assert a + b == b;
    } else {
      assert (a + b)[1..] == a[1..] + b;
      AcceptedAppend(process, a[1..], b);
    }
  }

  /** Processing one more input appends exactly what that input emits. */
  lemma AcceptedSnoc<I, O>(process: I -> Option<O>, inputs: seq<I>, k: nat)
    requires k < |inputs|
    ensures Accepted(process, inputs[..k + 1]) == Accepted(process, inputs[..k]) + Emitted(process(inputs[k]))
  {
    assert inputs[..k + 1] == inputs[..k] + [inputs[k]];
    AcceptedAppend(process, inputs[..k], [inputs[k]]);
    assert Accepted(process, [inputs[k]]) == Emitted(process(inputs[k])) by {
      assert [inputs[k]][1..] == [];
    }
  }

  /** Each input yields exactly its own zero or one outputs, placed right after the outputs of the inputs before it. */
  lemma OutputOfInput<I, O>(process: I -> Option<O>, inputs: seq<I>, k: nat)
    requires k < |inputs|
    ensures |Accepted(process, inputs[..k + 1])| == |Accepted(process, inputs[..k])| + |Emitted(process(inputs[k]))|
    ensures process(inputs[k]).Some? ==>
      |Accepted(process, inputs[..k])| < |Accepted(process, inputs)| &&
      Accepted(process, inputs)[|Accepted(process, inputs[..k])|] == process(inputs[k]).value
  {
    assert inputs[..k + 1] == inputs[..k] + [inputs[k]];
    AcceptedAppend(process, inputs[..k], [inputs[k]]);
    assert Accepted(process, [inputs[k]]) == Emitted(process(inputs[k])) by {
      assert [inputs[k]][1..] == [];
    }
    assert inputs == inputs[..k + 1] + inputs[k + 1..];
    AcceptedAppend(process, inputs[..k + 1], inputs[k + 1..]);
  }

  /** The outputs of a prefix of the inputs are a prefix of the outputs of a longer one: outputs are never reordered. */
  lemma AcceptedPrefix<I, O>(process: I -> Option<O>, inputs: seq<I>, i: nat, j: nat)
    requires i <= j <= |inputs|
    ensures Accepted(process, inputs[..i]) <= Accepted(process, inputs[..j])
    ensures |Accepted(process, inputs[..j])| <= |Accepted(process, inputs[..i])| + (j - i)
  {
    assert inputs[..j] == inputs[..i] + inputs[i..j];
    AcceptedAppend(process, inputs[..i], inputs[i..j]);
    AcceptedAtMostOne(process, inputs[i..j]);
  }

  /** At most one output per input. */
  lemma {:induction false} AcceptedAtMostOne<I, O>(process: I -> Option<O>, inputs: seq<I>)
    ensures |Accepted(process, inputs)| <= |inputs|
  {
    if inputs != [] {
      AcceptedAtMostOne(process, inputs[1..]);
    }
  }

  /**
    StageBase<InputType, OutputType>. The concrete stage's ProcessFunction is
    the constant `process`: None for "returned false", Some(o) for "returned
    true and wrote o".
  */
  class StageBase<I, O> {
    const process: I -> Option<O>
    var inFifo: seq<I>
    var outFifo: seq<O>
    var shouldClose: bool
    var isReadyFlag: bool

    /** Both queues empty, not ready, not asked to close. */
    constructor (process: I -> Option<O>)
      ensures this.process == process
      ensures inFifo == [] && outFifo == []
      ensures !shouldClose && !isReadyFlag
    {
      this.process := process;
      inFifo, outFifo := [], [];
      isReadyFlag := false;
      shouldClose := false;
    }

    /**
      The first statement of ThreadFunction: the worker has started. The stage
      never starts a worker itself; the subclass does, once.
    */
    method StartWorker()
      requires !isReadyFlag
      modifies this
      ensures isReadyFlag
      ensures shouldClose == old(shouldClose)
      ensures inFifo == old(inFifo) && outFifo == old(outFifo)
    {
      isReadyFlag := true;
    }

    /**
      One pass of the `while (!ShouldClose)` loop of ThreadFunction. Once the
      stop flag is set the loop has exited, and a step changes nothing.
    */
    method WorkerStep()
      requires isReadyFlag
      modifies this
      ensures isReadyFlag && shouldClose == old(shouldClose)
      ensures old(shouldClose) || old(inFifo) == [] ==> inFifo == old(inFifo) && outFifo == old(outFifo)
      ensures !old(shouldClose) && old(inFifo) != [] ==>
        inFifo == old(inFifo)[1..] && outFifo == old(outFifo) + Emitted(process(old(inFifo)[0]))
      ensures |outFifo| <= |old(outFifo)| + 1
    {
      if !shouldClose {
        if inFifo != [] {
          var input := inFifo[0];
          var output := process(input);
          if output.Some? {
            outFifo := outFifo + [output.value];
          }
          inFifo := inFifo[1..];
        }
      }
    }

    /**
      `n` passes of the worker loop: the first min(n, |inFifo|) inputs are
      processed in order, and any further passes find the queue empty.
    */
    method RunSteps(n: nat)
      requires isReadyFlag
      modifies this
      ensures isReadyFlag && shouldClose == old(shouldClose)
      ensures var k := if old(shouldClose) then 0 else Min(n, |old(inFifo)|);
        inFifo == old(inFifo)[k..] && outFifo == old(outFifo) + Accepted(process, old(inFifo)[..k])
    {
      if shouldClose {
        for j := 0 to n
          invariant isReadyFlag && shouldClose
          invariant inFifo == old(inFifo) && outFifo == old(outFifo)
        {
          WorkerStep();
        }
        return;
      }
      ghost var inputs := old(inFifo);
      ghost var outs := old(outFifo);
      for j := 0 to n
        invariant isReadyFlag && !shouldClose
        invariant inFifo == inputs[Min(j, |inputs|)..]
        invariant outFifo == outs + Accepted(process, inputs[..Min(j, |inputs|)])
      {
        if j < |inputs| {
          AcceptedSnoc(process, inputs, j);
          assert inputs[j..][1..] == inputs[j + 1..];
        }
        WorkerStep();
      }
    }

    /** Run the worker until the input queue is empty: every queued input is processed and its output, if any, appended in order. */
    method Drain()
      requires isReadyFlag && !shouldClose
      modifies this
      ensures isReadyFlag && !shouldClose
      ensures inFifo == [] && outFifo == old(outFifo) + Accepted(process, old(inFifo))
    {
      while inFifo != []
        invariant isReadyFlag && !shouldClose
        invariant old(outFifo) + Accepted(process, old(inFifo)) == outFifo + Accepted(process, inFifo)
        decreases |inFifo|
      {
        WorkerStep();
      }
    }

    /** Post: the item goes to the back of the input queue; the input queue has no capacity bound. */
    method Post(dataIn: I)
      modifies this
      ensures inFifo == old(inFifo) + [dataIn]
      ensures outFifo == old(outFifo)
      ensures shouldClose == old(shouldClose) && isReadyFlag == old(isReadyFlag)
    {
      inFifo := inFifo + [dataIn];
    }

    /**
      Get: `dataOut` is the caller's variable passed by reference; it is
      returned unchanged when there is nothing to take.
    */
    method Get(current: O) returns (found: bool, dataOut: O)
      modifies this
      ensures found <==> old(outFifo) != []
      ensures found ==> dataOut == old(outFifo)[0] && outFifo == old(outFifo)[1..]
      ensures !found ==> dataOut == current && outFifo == old(outFifo)
      ensures inFifo == old(inFifo)
      ensures shouldClose == old(shouldClose) && isReadyFlag == old(isReadyFlag)
    {
      if outFifo != [] {
        dataOut := outFifo[0];
        outFifo := outFifo[1..];
        return true, dataOut;
      }
      return false, current;
    }

    /** The input queue's length, cast to uint16_t. */
    method GetInFIFOSize() returns (size: u16)
      ensures size as int == |inFifo| % U16_MODULUS
      ensures |inFifo| < U16_MODULUS ==> size as int == |inFifo|
    {
      size := (|inFifo| % U16_MODULUS) as u16;
    }

    /** The output queue's length, cast to uint16_t. */
    method GetOutFIFOSize() returns (size: u16)
      ensures size as int == |outFifo| % U16_MODULUS
      ensures |outFifo| < U16_MODULUS ==> size as int == |outFifo|
    {
      size := (|outFifo| % U16_MODULUS) as u16;
    }

    /**
      Terminate sets the stop flag and joins the worker. The join dereferences
      the thread handle and may happen once, so the worker must have been
      started and not yet stopped. Queued inputs stay where they are.
    */
    method Terminate()
      requires isReadyFlag && !shouldClose
      modifies this
      ensures shouldClose && isReadyFlag
      ensures inFifo == old(inFifo) && outFifo == old(outFifo)
    {
      shouldClose := true;
    }

    method IsReady() returns (ready: bool)
      ensures ready == isReadyFlag
    {
      ready := isReadyFlag;
    }
  }

  /**
    Post every item, let the worker run to quiescence, then call Get until it
    reports nothing: the caller receives exactly the accepted outputs, in the
    order of their inputs. `initial` is the value of the caller's output
    variable before the first Get.
  */
  method PostDrainCollect<I, O>(process: I -> Option<O>, items: seq<I>, initial: O) returns (received: seq<O>)
    ensures received == Accepted(process, items)
  {
    var stage := new StageBase<I, O>(process);
    stage.StartWorker();
    for i := 0 to |items|
      invariant stage.inFifo == items[..i] && stage.outFifo == []
      invariant stage.isReadyFlag && !stage.shouldClose && stage.process == process
    {
      assert items[..i + 1] == items[..i] + [items[i]];
      stage.Post(items[i]);
    }
    assert items[..|items|] == items;
    stage.Drain();
    var dataOut := initial;
    var found := true;
    received := [];
    while found
      invariant received + stage.outFifo == Accepted(process, items)
      invariant !found ==> stage.outFifo == []
      decreases |stage.outFifo| + (if found then 1 else 0)
    {
      found, dataOut := stage.Get(dataOut);
      if found {
        received := received + [dataOut];
      }
    }
  }

  /** A processor that doubles every integer and always accepts. */
  function Double(x: int): Option<int> { Some(2 * x) }

  /** A processor that doubles non-negative integers and declines negative ones. */
  function DoubleNonNegative(x: int): Option<int> { if x >= 0 then Some(2 * x) else None }

  /** Post 5, 10, 15 to a doubling stage and drain it: three Gets give 10, 20, 30 and a fourth finds nothing. */
  method DoublingScenario() returns (first: int, second: int, third: int, fourthFound: bool)
    ensures first == 10 && second == 20 && third == 30 && !fourthFound
  {
    var stage := new StageBase<int, int>(Double);
    stage.StartWorker();
    stage.Post(5);
    stage.Post(10);
    stage.Post(15);
    stage.Drain();
    assert Accepted(Double, [15]) == [30] by { assert [15][1..] == []; }
    assert Accepted(Double, [10, 15]) == [20, 30] by { assert [10, 15][1..] == [15]; }
    assert Accepted(Double, [5, 10, 15]) == [10, 20, 30] by { assert [5, 10, 15][1..] == [10, 15]; }
    var found;
    found, first := stage.Get(0);
    found, second := stage.Get(0);
    found, third := stage.Get(0);
    var ignored;
    fourthFound, ignored := stage.Get(0);
  }

  /** Post -1 and 4 to a stage that declines negatives: exactly one Get succeeds, with 8. */
  method FilteringScenario() returns (firstFound: bool, first: int, secondFound: bool)
    ensures firstFound && first == 8 && !secondFound
  {
    var stage := new StageBase<int, int>(DoubleNonNegative);
    stage.StartWorker();
    stage.Post(-1);
    stage.Post(4);
    stage.Drain();
    assert Accepted(DoubleNonNegative, [4]) == [8] by { assert [4][1..] == []; }
    assert Accepted(DoubleNonNegative, [-1, 4]) == [8] by { assert [-1, 4][1..] == [4]; }
    firstFound, first := stage.Get(0);
    var ignored;
    secondFound, ignored := stage.Get(0);
  }

  /**
    Terminate while three inputs are queued: however many further worker passes
    are attempted, none of them is processed and the output queue keeps only
    what was produced before the stop.
  */
  method TerminateScenario(passes: nat) returns (inputDepth: u16, outputDepth: u16)
    ensures inputDepth == 3 && outputDepth == 1
  {
    var stage := new StageBase<int, int>(Double);
    stage.StartWorker();
    stage.Post(1);
    stage.WorkerStep();
    stage.Post(2);
    stage.Post(3);
    stage.Post(4);
    stage.Terminate();
    stage.RunSteps(passes);
    inputDepth := stage.GetInFIFOSize();
    outputDepth := stage.GetOutFIFOSize();
  }
}
