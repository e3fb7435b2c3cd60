/** Asynchronous disposal of an array of objects: a thread pushes messages for chunks from
    the end of the array to the main task, which disposes the objects. */
module Disposal {
  import opened Sequences

  const CHUNK: nat := 20

  /** Dispose the objects from `first` up to the next null, then free the array if asked. */
  datatype Message = Message(first: nat, free: bool)

  /** What the pushing thread does next. */
  datatype Phase = Pushing(end: nat) | PushingFree | Done

  /** The array with its terminator, 0 for null; the messages on their way; the positions
      whose objects have been disposed, in order; whether the array has been freed. */
  datatype State = State(
    objects: seq<nat>, queue: seq<Message>, phase: Phase, log: seq<nat>, freed: bool)

  /** Objects followed by a null. */
  predicate NullTerminated(objects: seq<nat>) {
    objects != [] && objects[|objects| - 1] == 0
  }

  function FirstNull(objects: seq<nat>, i: nat): (n: nat)
    requires NullTerminated(objects) && i < |objects|
    ensures i <= n < |objects| && objects[n] == 0
    ensures forall k :: i <= k < n ==> objects[k] != 0
    decreases |objects| - i
  {
    if objects[i] == 0 then i else FirstNull(objects, i + 1)
  }

  /** The array with the positions from `a` to `b` nulled. */
  function Nulled(objects: seq<nat>, a: nat, b: nat): (r: seq<nat>)
    requires a <= b <= |objects|
    ensures |r| == |objects|
    ensures forall k :: 0 <= k < |r| ==> r[k] == if a <= k < b then 0 else objects[k]
  {
    seq(|objects|, k requires 0 <= k < |objects| => if a <= k < b then 0 else objects[k])
  }

  /** The start of the chunk that ends at `end`. */
  function Start(end: nat): nat {
    if end < CHUNK then 0 else end - CHUNK
  }

  // ----- The steps --------------------------------------------------------------------------

  ghost predicate CanPush(s: State) {
    !s.phase.Done?
  }

  /** One round of the pushing thread. */
  ghost function Push(s: State, free: bool): State
    requires CanPush(s)
  {
    match s.phase
    case PushingFree => s.(queue := s.queue + [Message(0, true)], phase := Done)
    case Pushing(end) =>
      s.(queue := s.queue + [Message(Start(end), false)],
         phase := if Start(end) > 0 then Pushing(Start(end)) else if free then PushingFree else Done)
  }

  /** The main task can handle a message: there is one, and what it reads is still there. */
  ghost predicate CanHandle(s: State) {
    s.queue != [] && !s.freed && NullTerminated(s.objects) && s.queue[0].first < |s.objects|
  }

  ghost function Handle(s: State): State
    requires CanHandle(s)
  {
    var m := s.queue[0];
    var end := FirstNull(s.objects, m.first);
    State(Nulled(s.objects, m.first, end), s.queue[1..], s.phase, s.log + Range(m.first, end), m.free)
  }

  // ----- Every interleaving ---------------------------------------------------------------------

  /** The messages for the objects before `end`, with the one that frees the array. */
  function Messages(end: nat, free: bool): seq<Message>
    decreases end
  {
    [Message(Start(end), false)] +
    (if Start(end) > 0 then Messages(Start(end), free) else FreeMessage(free))
  }

  function FreeMessage(free: bool): seq<Message> {
    if free then [Message(0, true)] else []
  }

  function Remaining(phase: Phase, free: bool): seq<Message> {
    match phase
    case Pushing(end) => Messages(end, free)
    case PushingFree => [Message(0, true)]
    case Done => []
  }

  /** The messages not handled yet, pushed or not. */
  ghost function Outstanding(s: State, free: bool): seq<Message> {
    s.queue + Remaining(s.phase, free)
  }

  /** The positions in the order in which they are disposed. */
  function Order(n: nat): (r: seq<nat>)
    decreases n
  {
    Range(Start(n), n) + (if Start(n) > 0 then Order(Start(n)) else [])
  }

  /** Where the main task is: the objects before `end` are left, those after are disposed;
      or everything is, and only the array may be left to be freed. */
  ghost predicate Disposing(s: State, objects: seq<nat>, free: bool, end: nat)
    requires NullTerminated(objects)
  {
    && end < |objects| && !s.freed
    && s.objects == Nulled(objects, end, |objects| - 1)
    && s.log + Order(end) == Order(|objects| - 1)
    && Outstanding(s, free) == Messages(end, free)
  }

  ghost predicate Disposed(s: State, objects: seq<nat>, free: bool)
    requires NullTerminated(objects)
  {
    && s.objects == Nulled(objects, 0, |objects| - 1)
    && s.log == Order(|objects| - 1)
    && Outstanding(s, free) == (if s.freed then [] else FreeMessage(free))
    && (s.freed ==> free)
  }

  ghost predicate Inv(s: State, objects: seq<nat>, free: bool)
    requires NullTerminated(objects)
  {
    Disposed(s, objects, free) || exists end: nat :: Disposing(s, objects, free, end)
  }

  /** An array of objects and its terminator. */
  predicate IsArray(objects: seq<nat>) {
    NullTerminated(objects) && forall k :: 0 <= k < |objects| - 1 ==> objects[k] != 0
  }

  ghost function Initial(objects: seq<nat>): State
    requires IsArray(objects)
  {
    State(objects, [], Pushing(|objects| - 1), [], false)
  }

  lemma InitialInv(objects: seq<nat>, free: bool)
    requires IsArray(objects)
    ensures Inv(Initial(objects), objects, free)
  {
    var n := |objects| - 1;
    var s := Initial(objects);
    hide Order, Messages;
    assert s.log + Order(n) == Order(n) && s.queue + Messages(n, free) == Messages(n, free);
    assert Nulled(objects, n, n) == objects;
    assert Disposing(s, objects, free, n);
  }

  /** Pushing only moves a message from what is to be pushed to the queue. */
  lemma PushKeepsOutstanding(s: State, free: bool)
    requires CanPush(s)
    ensures Outstanding(Push(s, free), free) == Outstanding(s, free)
  {
  }

  lemma PushKeepsInv(s: State, objects: seq<nat>, free: bool)
    requires IsArray(objects) && Inv(s, objects, free) && CanPush(s)
    ensures Inv(Push(s, free), objects, free)
  {
    hide Order, Nulled, Outstanding;
    PushKeepsOutstanding(s, free);
    if !Disposed(s, objects, free) {
      var end: nat :| Disposing(s, objects, free, end);
      assert Disposing(Push(s, free), objects, free, end);
    }
  }

  /** There is a message for every twenty objects, one more for those that are left over, and
      one to free the array if it is to be; each is for twenty objects at most. */
  lemma {:induction false} MessagesForTwenty(n: nat, free: bool)
    ensures |Messages(n, free)| == (if n == 0 then 1 else (n + 19) / 20) + (if free then 1 else 0)
    ensures n - 20 <= Messages(n, free)[0].first <= n
    decreases n
  {
    if n > 20 {
      MessagesForTwenty(n - 20, free);
    }
  }

  /** Whatever is in the queue can be handled: the array has not been freed, and the
      message's chunk ends with a null. */
  lemma QueueCanBeHandled(s: State, objects: seq<nat>, free: bool)
    requires IsArray(objects) && Inv(s, objects, free) && s.queue != []
    ensures CanHandle(s)
  {
    assert s.queue[0] == Outstanding(s, free)[0];
  }

  lemma HandleKeepsInv(s: State, objects: seq<nat>, free: bool)
    requires IsArray(objects) && Inv(s, objects, free) && CanHandle(s)
    ensures Inv(Handle(s), objects, free)
  {
    NextOutstanding(s, free);
    hide Order, Nulled, Outstanding, Messages, Handle, CanHandle, NullTerminated, IsArray, Disposing, Disposed;
    if Disposed(s, objects, free) {
      HandleFree(s, objects, free);
    } else {
      var end: nat :| Disposing(s, objects, free, end);
      HandleChunk(s, objects, free, end);
    }
  }

  lemma NextOutstanding(s: State, free: bool)
    requires CanHandle(s)
    ensures Outstanding(s, free) != [] && s.queue[0] == Outstanding(s, free)[0]
    ensures Outstanding(Handle(s), free) == Outstanding(s, free)[1..]
  {
  }

  lemma HandleFree(s: State, objects: seq<nat>, free: bool)
    requires IsArray(objects) && Disposed(s, objects, free) && CanHandle(s)
    requires Outstanding(s, free) != [] && s.queue[0] == Outstanding(s, free)[0]
    requires Outstanding(Handle(s), free) == Outstanding(s, free)[1..]
    ensures Disposed(Handle(s), objects, free)
  {
  }

  lemma HandleChunk(s: State, objects: seq<nat>, free: bool, end: nat)
    requires IsArray(objects) && Disposing(s, objects, free, end) && CanHandle(s)
    requires Outstanding(s, free) != [] && s.queue[0] == Outstanding(s, free)[0]
    requires Outstanding(Handle(s), free) == Outstanding(s, free)[1..]
    ensures Inv(Handle(s), objects, free)
  {
    var first := Start(end);
    assert s.queue[0] == Message(first, false);
    assert s.objects[end] == 0;
    assert forall k :: first <= k < end ==> s.objects[k] == objects[k] != 0;
    assert FirstNull(s.objects, first) == end;
    assert Nulled(s.objects, first, end) == Nulled(objects, first, |objects| - 1);
    OrderStep(s.log, end);
    assert Messages(end, free)[1..] == if first > 0 then Messages(first, free) else FreeMessage(free);
    if first > 0 {
      assert Disposing(Handle(s), objects, free, first);
    } else {
      assert Disposed(Handle(s), objects, free);
    }
  }

  lemma OrderStep(log: seq<nat>, end: nat)
    ensures log + Order(end) == (log + Range(Start(end), end)) + (if Start(end) > 0 then Order(Start(end)) else [])
  {
  }

  // ----- Runs -------------------------------------------------------------------------------------

  datatype Step = PushStep | HandleStep

  ghost predicate Enabled(s: State, step: Step) {
    match step
    case PushStep => CanPush(s)
    case HandleStep => s.queue != []
  }

  /** A run: at each step the thread pushes or the main task handles the oldest message. */
  ghost predicate IsRun(states: seq<State>, steps: seq<Step>, objects: seq<nat>, free: bool)
    requires IsArray(objects)
  {
    && |states| == |steps| + 1 && states[0] == Initial(objects)
    && forall k :: 0 <= k < |steps| ==>
         Enabled(states[k], steps[k]) && Follows(states[k], steps[k], states[k + 1], free)
  }

  ghost predicate Follows(s: State, step: Step, s': State, free: bool)
    requires Enabled(s, step)
  {
    match step
    case PushStep => s' == Push(s, free)
    case HandleStep => CanHandle(s) ==> s' == Handle(s)
  }

  lemma {:induction false} RunKeepsInv(states: seq<State>, steps: seq<Step>, objects: seq<nat>, free: bool, k: nat)
    requires IsArray(objects) && IsRun(states, steps, objects, free) && k < |states|
    ensures Inv(states[k], objects, free)
  {
    hide Inv;
    if k == 0 {
      InitialInv(objects, free);
    } else {
      RunKeepsInv(states, steps, objects, free, k - 1);
      match steps[k - 1] {
        case PushStep => PushKeepsInv(states[k - 1], objects, free);
        case HandleStep =>
          QueueCanBeHandled(states[k - 1], objects, free);
          HandleKeepsInv(states[k - 1], objects, free);
      }
    }
  }

  /** How often position `i` has been disposed. */
  function Count(log: seq<nat>, i: nat): nat {
    multiset(log)[i]
  }

  lemma CountConcat(a: seq<nat>, b: seq<nat>, i: nat)
    ensures Count(a + b, i) == Count(a, i) + Count(b, i)
  {
  }

  lemma {:induction false} OrderIsEachOnce(n: nat, i: nat)
    requires i < n
    ensures Count(Order(n), i) == 1
    decreases n
  {
    hide Order, Range;
    var first := Start(n);
    OrderIs(n);
    var rest := if first > 0 then Order(first) else [];
    RangeCount(first, n, i);
    if i < first {
      OrderIsEachOnce(first, i);
    } else if first > 0 {
      OrderBelow(first, i);
    }
    CountConcat(Range(first, n), rest, i);
  }

  lemma OrderIs(n: nat)
    ensures Order(n) == Range(Start(n), n) + (if Start(n) > 0 then Order(Start(n)) else [])
  {
  }

  lemma {:induction false} OrderBelow(n: nat, i: nat)
    requires n <= i
    ensures i !in Order(n)
    decreases n
  {
    if Start(n) > 0 {
      OrderBelow(Start(n), i);
    }
  }

  lemma {:induction false} RangeCount(a: nat, b: nat, i: nat)
    requires a <= b
    ensures Count(Range(a, b), i) == if a <= i < b then 1 else 0
    decreases b - a
  {
    if a < b {
      RangeCount(a, b - 1, i);
      assert Range(a, b) == Range(a, b - 1) + [b - 1];
    } else {
      assert Range(a, b) == [];
    }
  }

  /** The chunks dispose the objects that the main task disposes on its own, in one go, when
      there is no thread. */
  lemma {:induction false} SameAsDirect(n: nat)
    ensures multiset(Order(n)) == multiset(Range(0, n))
    decreases n
  {
    hide Order;
    OrderIs(n);
    if Start(n) > 0 {
      SameAsDirect(Start(n));
      assert Range(0, n) == Range(0, Start(n)) + Range(Start(n), n);
    } else {
      assert Range(0, n) + [] == Range(0, n);
    }
  }

  /** In every interleaving no object is disposed twice, the array is not freed while an
      object is left, and no message reads it afterwards. */
  lemma NothingTwice(states: seq<State>, steps: seq<Step>, objects: seq<nat>, free: bool, k: nat, i: nat)
    requires IsArray(objects) && IsRun(states, steps, objects, free) && k < |states| && i < |objects| - 1
    ensures Count(states[k].log, i) <= 1
    ensures states[k].log <= Order(|objects| - 1)
    ensures states[k].freed ==> free && Count(states[k].log, i) == 1
    ensures states[k].queue != [] ==> CanHandle(states[k])
  {
    hide Order, Nulled, Outstanding, Count, CanHandle;
    var s := states[k];
    RunKeepsInv(states, steps, objects, free, k);
    OrderIsEachOnce(|objects| - 1, i);
    if s.queue != [] {
      QueueCanBeHandled(s, objects, free);
    }
    if !Disposed(s, objects, free) {
      var end: nat :| Disposing(s, objects, free, end);
      CountConcat(s.log, Order(end), i);
    }
  }

  /** When neither the thread nor the main task has anything left to do, every object has
      been disposed exactly once, and the array has been freed if it was to be. */
  lemma EverythingDisposed(states: seq<State>, steps: seq<Step>, objects: seq<nat>, free: bool)
    requires IsArray(objects) && IsRun(states, steps, objects, free)
    requires forall step :: !Enabled(states[|steps|], step)
    ensures var s := states[|steps|];
      && s.log == Order(|objects| - 1) && s.freed == free
      && forall i :: 0 <= i < |objects| - 1 ==> Count(s.log, i) == 1
  {
    hide Order, Nulled, Messages, Count;
    var s := states[|steps|];
    RunKeepsInv(states, steps, objects, free, |steps|);
    assert !Enabled(s, PushStep) && !Enabled(s, HandleStep);
    forall end: nat
      ensures !Disposing(s, objects, free, end)
    {
      MessagesNotEmpty(end, free);
    }
    forall i | 0 <= i < |objects| - 1
      ensures Count(s.log, i) == 1
    {
      OrderIsEachOnce(|objects| - 1, i);
    }
  }

  lemma MessagesNotEmpty(end: nat, free: bool)
    ensures |Messages(end, free)| > 0
  {
  }

  /** Every step brings the end nearer. */
  ghost function Left(s: State, free: bool): nat {
    |s.queue| + 2 * |Remaining(s.phase, free)|
  }

  lemma StepsRunOut(s: State, step: Step, free: bool)
    requires Enabled(s, step) && (step.HandleStep? ==> CanHandle(s))
    ensures Left(if step.PushStep? then Push(s, free) else Handle(s), free) == Left(s, free) - 1
  {
  }

  // ----- The program ----------------------------------------------------------------------------

  /** The array, and the queue between the thread and the main task. */
  class Disposer {
    const slots: array<nat>
    var queue: seq<Message>
    var log: seq<nat>
    var freed: bool

    ghost function Abstract(phase: Phase): State
      reads this, slots
    {
      State(slots[..], queue, phase, log, freed)
    }

    constructor (slots: array<nat>)
      ensures this.slots == slots && queue == [] && log == [] && !freed
    {
      this.slots := slots;
      queue, log, freed := [], [], false;
    }

    /** The thread: it counts the objects, then pushes a message for each chunk and one for
        the array. */
    method PushAll(free: bool)
      requires IsArray(slots[..]) && queue == []
      modifies this`queue
      ensures queue == Messages(slots.Length - 1, free)
    {
      hide Messages;
      var i: nat := 0;
      while slots[i] != 0
        invariant 0 <= i < slots.Length && forall k :: 0 <= k < i ==> slots[k] != 0
        decreases slots.Length - i
      {
        i := i + 1;
      }
      ghost var all := Messages(i, free);
      assert queue + all == all;
      while true
        invariant queue + Messages(i, free) == all
        decreases i
      {
        var first := if i < CHUNK then 0 else i - CHUNK;
        MessagesIs(queue, i, free);
        queue := queue + [Message(first, false)];
        if first == 0 {
          break;
        }
        i := first;
      }
      if free {
        queue := queue + [Message(0, true)];
      }
    }

    /** The main task: it takes the oldest message, disposes the objects from its position
        up to the next null, nulls them, and frees the array if asked. */
    method HandleNext(ghost phase: Phase)
      requires CanHandle(Abstract(phase))
      modifies this, slots
      ensures Abstract(phase) == Handle(old(Abstract(phase)))
    {
      var m := queue[0];
      queue := queue[1..];
      ghost var objects, end := slots[..], FirstNull(slots[..], m.first);
      var i := m.first;
      assert log + Range(m.first, i) == log && Nulled(objects, m.first, i) == objects;
      while slots[i] != 0
        invariant m.first <= i <= end && slots[..] == Nulled(objects, m.first, i)
        invariant log == old(log) + Range(m.first, i)
        invariant queue == old(queue)[1..] && freed == old(freed)
        decreases end - i
      {
        log := log + [i];
        slots[i] := 0;
        i := i + 1;
        assert Range(m.first, i) == Range(m.first, i - 1) + [i - 1];
      }
      freed := m.free;
    }
  }

  lemma MessagesIs(queue: seq<Message>, end: nat, free: bool)
    ensures queue + Messages(end, free) == (queue + [Message(Start(end), false)])
      + (if Start(end) > 0 then Messages(Start(end), free) else FreeMessage(free))
  {
  }
}
