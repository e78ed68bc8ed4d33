/** Flame graphs from trace events: begin and end events of nested scopes, with a stack per thread,
    become self times on the nodes of a tree of call paths. */
module Trace {
  import opened Wrappers
  import opened MapSums

  type ThreadId = int
  type Path = seq<string>

  /** An event: a scope begins, a scope ends, or something this tool does not look at. The caption of
      a scope is its name with its arguments. */
  datatype Event = Begin(tid: ThreadId, ts: int, caption: string) | End(tid: ThreadId, ts: int) | Other(tid: ThreadId) | Blank

  /** An open scope, with the time its finished children took. */
  datatype Frame = Frame(caption: string, begin: int, childts: int)

  type Stacks = map<ThreadId, seq<Frame>>

  function Labels(stack: seq<Frame>): Path {
    seq(|stack|, i requires 0 <= i < |stack| => stack[i].caption)
  }

  function StackOf(stacks: Stacks, tid: ThreadId): seq<Frame> {
    if tid in stacks then stacks[tid] else []
  }

  function TicksAt(ticks: map<Path, int>, path: Path): int {
    if path in ticks then ticks[path] else 0
  }

  /** The state after some events: open scopes, self times by path, and, to compare with, the total
      duration of the outermost scopes that have ended and the list of all self times. */
  datatype State = State(stacks: Stacks, ticks: map<Path, int>, outermost: int, selfTimes: seq<(Path, int)>)

  const START: State := State(map[], map[], 0, [])

  /** The stack of a thread after its innermost scope has ended: the parent learns the duration. */
  function Popped(stack: seq<Frame>, duration: int): seq<Frame>
    requires stack != []
  {
    var n := |stack|;
    if n == 1 then []
    else stack[..n - 2] + [stack[n - 2].(childts := stack[n - 2].childts + duration)]
  }

  /** One event; `None` when a scope ends that has not begun. */
  function Step(s: State, e: Event): Option<State> {
    match e
    case Blank => Some(s)
    case Other(tid) => Some(s.(stacks := s.stacks[tid := StackOf(s.stacks, tid)]))
    case Begin(tid, ts, caption) =>
      Some(s.(stacks := s.stacks[tid := StackOf(s.stacks, tid) + [Frame(caption, ts, 0)]]))
    case End(tid, ts) =>
      var stack := StackOf(s.stacks, tid);
      if stack == [] then None else Some(Closed(s, tid, stack, Labels(stack), ts - stack[|stack| - 1].begin))
  }

  /** The innermost scope of a stack has ended: its path gets the time its children did not take. */
  function Closed(s: State, tid: ThreadId, stack: seq<Frame>, path: Path, duration: int): State
    requires stack != []
  {
    var self := duration - stack[|stack| - 1].childts;
    State(s.stacks[tid := Popped(stack, duration)],
          s.ticks[path := TicksAt(s.ticks, path) + self],
          s.outermost + (if |stack| == 1 then duration else 0),
          s.selfTimes + [(path, self)])
  }

  function Run(events: seq<Event>): Option<State> {
    if events == [] then Some(START)
    else
      var before := Run(events[..|events| - 1]);
      if before.None? then None else Step(before.value, events[|events| - 1])
  }

  // ----- conservation -----

  function ChildTicks(stack: seq<Frame>): int {
    if stack == [] then 0 else ChildTicks(stack[..|stack| - 1]) + stack[|stack| - 1].childts
  }

  function OpenTicks(stacks: Stacks): map<ThreadId, int> {
    map t | t in stacks :: ChildTicks(stacks[t])
  }

  /** All self time is accounted for: it is the time of the finished outermost scopes plus what the
      open scopes know of their finished children. */
  ghost predicate Conserved(s: State) {
    Sum(s.ticks) == s.outermost + Sum(OpenTicks(s.stacks))
  }

  lemma {:induction false} PushedTicks(stack: seq<Frame>, f: Frame)
    ensures ChildTicks(stack + [f]) == ChildTicks(stack) + f.childts
  {
    assert (stack + [f])[..|stack|] == stack;
  }

  lemma {:induction false} PoppedTicks(stack: seq<Frame>, duration: int)
    requires stack != []
    ensures ChildTicks(Popped(stack, duration)) ==
            ChildTicks(stack) - stack[|stack| - 1].childts + (if |stack| == 1 then 0 else duration)
  {
    var n := |stack|;
    if n > 1 {
      var front, parent := stack[..n - 2], stack[n - 2];
      assert stack[..n - 1] == front + [parent];
      PushedTicks(front, parent);
      PushedTicks(front, parent.(childts := parent.childts + duration));
    }
  }

  lemma {:induction false} OpenTicksUpdate(stacks: Stacks, tid: ThreadId, stack: seq<Frame>)
    ensures Sum(OpenTicks(stacks[tid := stack])) ==
            Sum(OpenTicks(stacks)) - ChildTicks(StackOf(stacks, tid)) + ChildTicks(stack)
  {
    assert OpenTicks(stacks[tid := stack]) == OpenTicks(stacks)[tid := ChildTicks(stack)];
    Update(OpenTicks(stacks), tid, ChildTicks(stack));
  }

  lemma {:induction false} StepConserves(s: State, e: Event)
    requires Conserved(s) && Step(s, e).Some?
    ensures Conserved(Step(s, e).value)
  {
    match e
    case Blank =>
    case Other(tid) => TouchConserves(s, tid);
    case Begin(tid, ts, caption) => BeginConserves(s, tid, ts, caption);
    case End(tid, ts) => EndConserves(s, tid, ts);
  }

  lemma {:induction false} TouchConserves(s: State, tid: ThreadId)
    requires Conserved(s)
    ensures Conserved(Step(s, Other(tid)).value)
  {
    OpenTicksUpdate(s.stacks, tid, StackOf(s.stacks, tid));
  }

  lemma {:induction false} BeginConserves(s: State, tid: ThreadId, ts: int, caption: string)
    requires Conserved(s)
    ensures Conserved(Step(s, Begin(tid, ts, caption)).value)
  {
    PushTop(s.stacks, tid, Frame(caption, ts, 0));
  }

  lemma {:induction false} EndConserves(s: State, tid: ThreadId, ts: int)
    requires Conserved(s) && StackOf(s.stacks, tid) != []
    ensures Conserved(Step(s, End(tid, ts)).value)
  {
    var stack := StackOf(s.stacks, tid);
    var closed := Closed(s, tid, stack, Labels(stack), ts - stack[|stack| - 1].begin);
    assert Step(s, End(tid, ts)).value == closed;
    assert Conserved(closed) by {
      CloseConserves(s, tid, stack, Labels(stack), ts - stack[|stack| - 1].begin);
    }
  }

  lemma {:induction false} CloseConserves(s: State, tid: ThreadId, stack: seq<Frame>, path: Path, duration: int)
    requires Conserved(s) && stack == StackOf(s.stacks, tid) && stack != []
    ensures Conserved(Closed(s, tid, stack, path, duration))
  {
    var childts, closed := stack[|stack| - 1].childts, Closed(s, tid, stack, path, duration);
    assert Sum(closed.ticks) == Sum(s.ticks) + (duration - childts) by {
      AddTicks(s.ticks, path, duration - childts);
    }
    assert Sum(OpenTicks(closed.stacks)) == Sum(OpenTicks(s.stacks)) - childts + (if |stack| == 1 then 0 else duration) by {
      CloseTop(s.stacks, tid, duration);
    }
  }

  lemma {:induction false} AddTicks(ticks: map<Path, int>, path: Path, self: int)
    ensures Sum(ticks[path := TicksAt(ticks, path) + self]) == Sum(ticks) + self
  {
    Update(ticks, path, TicksAt(ticks, path) + self);
  }

  lemma {:induction false} PushTop(stacks: Stacks, tid: ThreadId, f: Frame)
    ensures Sum(OpenTicks(stacks[tid := StackOf(stacks, tid) + [f]])) == Sum(OpenTicks(stacks)) + f.childts
  {
    PushedTicks(StackOf(stacks, tid), f);
    OpenTicksUpdate(stacks, tid, StackOf(stacks, tid) + [f]);
  }

  lemma {:induction false} CloseTop(stacks: Stacks, tid: ThreadId, duration: int)
    requires StackOf(stacks, tid) != []
    ensures var stack := StackOf(stacks, tid);
            Sum(OpenTicks(stacks[tid := Popped(stack, duration)])) ==
            Sum(OpenTicks(stacks)) - stack[|stack| - 1].childts + (if |stack| == 1 then 0 else duration)
  {
    var stack := StackOf(stacks, tid);
    PoppedTicks(stack, duration);
    OpenTicksUpdate(stacks, tid, Popped(stack, duration));
  }

  /** After every event of every well-nested trace, no self time is lost or counted twice. */
  lemma {:induction false} RunConserves(events: seq<Event>)
    requires Run(events).Some?
    ensures Conserved(Run(events).value)
    decreases |events|
  {
    if events == [] {
      assert OpenTicks(map[]) == map[];
    } else {
      RunConserves(events[..|events| - 1]);
      StepConserves(Run(events[..|events| - 1]).value, events[|events| - 1]);
    }
  }

  /** Once all scopes have ended, the self times add up to the outermost durations. */
  lemma {:induction false} ClosedTraceAddsUp(events: seq<Event>)
    requires Run(events).Some? && forall t :: t in Run(events).value.stacks ==> Run(events).value.stacks[t] == []
    ensures Sum(Run(events).value.ticks) == Run(events).value.outermost
  {
    RunConserves(events);
    var stacks := Run(events).value.stacks;
    forall t | t in OpenTicks(stacks) ensures OpenTicks(stacks)[t] == 0 {
      assert stacks[t] == [];
    }
    AllZero(OpenTicks(stacks));
  }

  // ----- what the stacks hold, told from the events alone -----

  /** The events that began the scopes of a thread which are still open, outermost first. */
  function Opened(events: seq<Event>, tid: ThreadId): seq<nat> {
    if events == [] then []
    else
      var before, e := Opened(events[..|events| - 1], tid), events[|events| - 1];
      if e.Begin? && e.tid == tid then before + [|events| - 1]
      else if e.End? && e.tid == tid && before != [] then before[..|before| - 1]
      else before
  }

  /** The time of the finished scopes directly inside the scope which the i-th event began. */
  function Inner(events: seq<Event>, tid: ThreadId, i: nat): int {
    if events == [] then 0
    else
      var front, e := events[..|events| - 1], events[|events| - 1];
      var open := Opened(front, tid);
      Inner(front, tid, i) +
      if e.End? && e.tid == tid && |open| >= 2 && open[|open| - 2] == i then Since(events, open[|open| - 1], e.ts) else 0
  }

  /** The time from the i-th event on. */
  function Since(events: seq<Event>, i: nat, ts: int): int {
    if i < |events| && events[i].Begin? then ts - events[i].ts else 0
  }

  ghost predicate Rising(open: seq<nat>, events: seq<Event>, tid: ThreadId) {
    && (forall j, k :: 0 <= j < k < |open| ==> open[j] < open[k])
    && (forall j :: 0 <= j < |open| ==> open[j] < |events| && events[open[j]].Begin? && events[open[j]].tid == tid)
  }

  lemma {:induction false} OpenedRise(events: seq<Event>, tid: ThreadId)
    ensures Rising(Opened(events, tid), events, tid)
  {
    if events != [] {
      OpenedRise(events[..|events| - 1], tid);
    }
  }

  lemma {:induction false} NotYetBegun(events: seq<Event>, tid: ThreadId, i: nat)
    requires |events| <= i
    ensures Inner(events, tid, i) == 0
  {
    if events != [] {
      NotYetBegun(events[..|events| - 1], tid, i);
      OpenedRise(events[..|events| - 1], tid);
    }
  }

  /** The frame of an open scope: caption and begin of its event, and the time of the finished scopes in it. */
  ghost predicate FrameOf(events: seq<Event>, tid: ThreadId, f: Frame, i: nat) {
    i < |events| && events[i].Begin? && f == Frame(events[i].caption, events[i].ts, Inner(events, tid, i))
  }

  ghost predicate StackIs(events: seq<Event>, tid: ThreadId, stack: seq<Frame>) {
    FramesOf(events, tid, stack, Opened(events, tid))
  }

  ghost predicate FramesOf(events: seq<Event>, tid: ThreadId, stack: seq<Frame>, open: seq<nat>) {
    |stack| == |open| && forall j :: 0 <= j < |stack| ==> FrameOf(events, tid, stack[j], open[j])
  }

  /** The stack of a thread holds the scopes begun and not yet ended, outermost first. */
  lemma {:induction false} StackTells(events: seq<Event>, tid: ThreadId)
    requires Run(events).Some?
    ensures StackIs(events, tid, StackOf(Run(events).value.stacks, tid))
    decreases |events|
  {
    if events != [] {
      var front, e := events[..|events| - 1], events[|events| - 1];
      StackTells(front, tid);
      assert events == front + [e];
      StackSteps(front, e, tid, Run(front).value);
    }
  }

  lemma {:induction false} StackSteps(front: seq<Event>, e: Event, tid: ThreadId, s: State)
    requires StackIs(front, tid, StackOf(s.stacks, tid)) && Step(s, e).Some?
    ensures StackIs(front + [e], tid, StackOf(Step(s, e).value.stacks, tid))
  {
    var stack, after := StackOf(s.stacks, tid), StackOf(Step(s, e).value.stacks, tid);
    if !At(e, tid) {
      assert after == stack;
      StackStays(front, e, tid, stack);
    } else if e.Begin? {
      assert after == stack + [Frame(e.caption, e.ts, 0)];
      StackGrows(front, e, stack);
    } else {
      assert stack != [] && after == Popped(stack, e.ts - stack[|stack| - 1].begin);
      StackShrinks(front, e, stack);
    }
  }

  /** One more event. */
  lemma {:induction false} OpenedStep(front: seq<Event>, e: Event, tid: ThreadId)
    ensures var open := Opened(front, tid);
            Opened(front + [e], tid) ==
              if e.Begin? && e.tid == tid then open + [|front|]
              else if e.End? && e.tid == tid && open != [] then open[..|open| - 1]
              else open
  {
    assert (front + [e])[..|front|] == front;
  }

  lemma {:induction false} InnerStep(front: seq<Event>, e: Event, tid: ThreadId, i: nat)
    ensures var open := Opened(front, tid);
            Inner(front + [e], tid, i) == Inner(front, tid, i) +
              if e.End? && e.tid == tid && |open| >= 2 && open[|open| - 2] == i then Since(front + [e], open[|open| - 1], e.ts) else 0
  {
    assert (front + [e])[..|front|] == front;
  }

  lemma {:induction false} StackStays(front: seq<Event>, e: Event, tid: ThreadId, stack: seq<Frame>)
    requires !At(e, tid) && StackIs(front, tid, stack)
    ensures StackIs(front + [e], tid, stack)
  {
    var open := Opened(front, tid);
    OpenedStep(front, e, tid);
    forall j | 0 <= j < |stack| ensures FrameOf(front + [e], tid, stack[j], open[j]) {
      assert FrameOf(front, tid, stack[j], open[j]);
      InnerStep(front, e, tid, open[j]);
    }
  }

  lemma {:induction false} StackGrows(front: seq<Event>, e: Event, stack: seq<Frame>)
    requires e.Begin? && StackIs(front, e.tid, stack)
    ensures StackIs(front + [e], e.tid, stack + [Frame(e.caption, e.ts, 0)])
  {
    var open, more := Opened(front, e.tid), stack + [Frame(e.caption, e.ts, 0)];
    OpenedStep(front, e, e.tid);
    NotYetBegun(front, e.tid, |front|);
    InnerStep(front, e, e.tid, |front|);
    forall j | 0 <= j < |stack| ensures FrameOf(front + [e], e.tid, stack[j], open[j]) {
      assert FrameOf(front, e.tid, stack[j], open[j]);
      InnerStep(front, e, e.tid, open[j]);
    }
  }

  lemma {:induction false} StackShrinks(front: seq<Event>, e: Event, stack: seq<Frame>)
    requires e.End? && stack != [] && StackIs(front, e.tid, stack)
    ensures StackIs(front + [e], e.tid, Popped(stack, e.ts - stack[|stack| - 1].begin))
  {
    var open := Opened(front, e.tid);
    OpenedRise(front, e.tid);
    InnersAtEnd(front, e, open);
    OpenedStep(front, e, e.tid);
    var events, left := front + [e], open[..|open| - 1];
    assert Opened(events, e.tid) == left;
    FramesShrink(events, front, e.tid, stack, open, e.ts);
  }

  ghost predicate InnersThen(events: seq<Event>, front: seq<Event>, tid: ThreadId, open: seq<nat>, ts: int) {
    forall j :: 0 <= j < |open| - 1 ==> Inner(events, tid, open[j]) == InnerThen(front, tid, open, j, ts)
  }

  lemma {:induction false} InnersAtEnd(front: seq<Event>, e: Event, open: seq<nat>)
    requires e.End? && open == Opened(front, e.tid) && Rising(open, front, e.tid)
    ensures InnersThen(front + [e], front, e.tid, open, e.ts)
  {
    forall j | 0 <= j < |open| - 1 ensures Inner(front + [e], e.tid, open[j]) == InnerThen(front, e.tid, open, j, e.ts) {
      InnerAtEnd(front, e, open, j);
    }
  }

  ghost function InnerThen(front: seq<Event>, tid: ThreadId, open: seq<nat>, j: nat, ts: int): int
    requires j < |open|
  {
    Inner(front, tid, open[j]) + if j + 2 == |open| then Since(front, open[|open| - 1], ts) else 0
  }

  lemma {:induction false} FramesShrink(events: seq<Event>, front: seq<Event>, tid: ThreadId, stack: seq<Frame>, open: seq<nat>, ts: int)
    requires front <= events && stack != [] && FramesOf(front, tid, stack, open)
    requires InnersThen(events, front, tid, open, ts)
    ensures FramesOf(events, tid, Popped(stack, ts - stack[|stack| - 1].begin), open[..|open| - 1])
  {
    var n := |stack|;
    var less := Popped(stack, ts - stack[n - 1].begin);
    assert FrameOf(front, tid, stack[n - 1], open[n - 1]);
    forall j | 0 <= j < n - 1 ensures FrameOf(events, tid, less[j], open[..n - 1][j]) {
      assert FrameOf(front, tid, stack[j], open[j]);
      assert Inner(events, tid, open[j]) == InnerThen(front, tid, open, j, ts);
    }
  }

  /** The end of a scope adds its time to the scope around it, and to no other. */
  lemma {:induction false} InnerAtEnd(front: seq<Event>, e: Event, open: seq<nat>, j: nat)
    requires e.End? && open == Opened(front, e.tid) && Rising(open, front, e.tid) && j + 1 < |open|
    ensures Inner(front + [e], e.tid, open[j]) == InnerThen(front, e.tid, open, j, e.ts)
  {
    InnerStep(front, e, e.tid, open[j]);
    assert j < |open| - 2 ==> open[j] < open[|open| - 2];
  }

  function CaptionsAt(events: seq<Event>, open: seq<nat>): Path {
    seq(|open|, j requires 0 <= j < |open| =>
      if open[j] < |events| && events[open[j]].Begin? then events[open[j]].caption else "")
  }

  /** The self time of the innermost open scope of a thread when it ends: at the path of all open
      captions, outermost first, the time since it began without the time of the scopes directly in it. */
  function Note(events: seq<Event>, tid: ThreadId, ts: int): (Path, int) {
    var open := Opened(events, tid);
    (CaptionsAt(events, open), if open == [] then 0 else Since(events, open[|open| - 1], ts) - Inner(events, tid, open[|open| - 1]))
  }

  lemma {:induction false} StackNote(events: seq<Event>, tid: ThreadId, stack: seq<Frame>, ts: int)
    requires StackIs(events, tid, stack) && stack != []
    ensures Note(events, tid, ts) == (Labels(stack), ts - stack[|stack| - 1].begin - stack[|stack| - 1].childts)
  {
    var open := Opened(events, tid);
    forall j | 0 <= j < |stack| ensures Labels(stack)[j] == CaptionsAt(events, open)[j] {
      assert FrameOf(events, tid, stack[j], open[j]);
    }
    assert Labels(stack) == CaptionsAt(events, open);
    assert FrameOf(events, tid, stack[|stack| - 1], open[|open| - 1]);
  }

  /** What an end event adds to the self times. */
  lemma {:induction false} EndNotesSelfTime(events: seq<Event>)
    requires Run(events).Some? && events != [] && events[|events| - 1].End?
    ensures var front, e := events[..|events| - 1], events[|events| - 1];
            Run(front).Some? && Opened(front, e.tid) != [] &&
            Run(events).value.selfTimes == Run(front).value.selfTimes + [Note(front, e.tid, e.ts)]
  {
    var front, e := events[..|events| - 1], events[|events| - 1];
    StackTells(front, e.tid);
    CloseNotes(front, e, Run(front).value);
  }

  lemma {:induction false} CloseNotes(events: seq<Event>, e: Event, s: State)
    requires e.End? && Step(s, e).Some? && StackIs(events, e.tid, StackOf(s.stacks, e.tid))
    ensures Opened(events, e.tid) != [] && Step(s, e).value.selfTimes == s.selfTimes + [Note(events, e.tid, e.ts)]
  {
    StackNote(events, e.tid, StackOf(s.stacks, e.tid), e.ts);
  }

  /** No other event adds a self time. */
  lemma {:induction false} OthersNoteNothing(events: seq<Event>)
    requires Run(events).Some? && events != [] && !events[|events| - 1].End?
    ensures Run(events[..|events| - 1]).Some? && Run(events).value.selfTimes == Run(events[..|events| - 1]).value.selfTimes
  {
  }

  /** An event ends a scope while none is open in its thread. */
  ghost predicate Unmatched(events: seq<Event>, k: nat) {
    k < |events| && events[k].End? && Opened(events[..k], events[k].tid) == []
  }

  /** Exactly then are the events refused. */
  lemma {:induction false} RefusedIff(events: seq<Event>)
    ensures Run(events).None? <==> exists k :: Unmatched(events, k)
    decreases |events|
  {
    if events != [] {
      var last := |events| - 1;
      var front, e := events[..last], events[last];
      RefusedIff(front);
      forall k: nat ensures Unmatched(events, k) <==> Unmatched(front, k) || (k == last && Unmatched(events, last)) {
        if k < last {
          assert front[..k] == events[..k];
        }
      }
      if Run(front).Some? {
        StackTells(front, if e.End? then e.tid else 0);
        assert Unmatched(events, last) <==> Step(Run(front).value, e).None?;
      }
    }
  }

  // ----- self times are not negative -----

  /** The scopes of a thread lie one inside the other, and their finished children inside them and
      before the next open one, or before now. */
  ghost predicate Nested(stack: seq<Frame>, now: int) {
    forall i :: 0 <= i < |stack| ==> Fits(stack, now, i)
  }

  ghost predicate Fits(stack: seq<Frame>, now: int, i: nat)
    requires i < |stack|
  {
    stack[i].childts >= 0 && stack[i].begin + stack[i].childts <= (if i + 1 < |stack| then stack[i + 1].begin else now)
  }

  /** The time of an event that has one. */
  predicate At(e: Event, tid: ThreadId) {
    (e.Begin? || e.End?) && e.tid == tid
  }

  /** In every thread the events are in the order of time. */
  ghost predicate InOrder(events: seq<Event>) {
    forall i, j, tid :: 0 <= i < j < |events| && At(events[i], tid) && At(events[j], tid) ==> events[i].ts <= events[j].ts
  }

  /** Threads are nested at any time not before their last event. */
  ghost predicate NestedAfter(s: State, events: seq<Event>) {
    forall tid, now :: (forall i :: 0 <= i < |events| && At(events[i], tid) ==> events[i].ts <= now) ==>
                         Nested(StackOf(s.stacks, tid), now)
  }

  ghost predicate NonNegative(selfTimes: seq<(Path, int)>) {
    forall i :: 0 <= i < |selfTimes| ==> selfTimes[i].1 >= 0
  }

  lemma {:induction false} PushedNested(stack: seq<Frame>, caption: string, ts: int, now: int)
    requires Nested(stack, ts) && ts <= now
    ensures Nested(stack + [Frame(caption, ts, 0)], now)
  {
    var more := stack + [Frame(caption, ts, 0)];
    forall i | 0 <= i < |more| ensures Fits(more, now, i) {
      assert i < |stack| ==> Fits(stack, ts, i);
    }
  }

  lemma {:induction false} PoppedNested(stack: seq<Frame>, ts: int, now: int)
    requires stack != [] && Nested(stack, ts) && ts <= now
    ensures Nested(Popped(stack, ts - stack[|stack| - 1].begin), now)
    ensures ts - stack[|stack| - 1].begin - stack[|stack| - 1].childts >= 0
  {
    var n := |stack|;
    var top, less := stack[n - 1], Popped(stack, ts - stack[n - 1].begin);
    assert Fits(stack, ts, n - 1);
    forall i | 0 <= i < |less| ensures Fits(less, now, i) {
      assert Fits(stack, ts, i);
    }
  }

  /** The self times noted for a path, added up. */
  function SelfAt(selfTimes: seq<(Path, int)>, path: Path): int {
    if selfTimes == [] then 0
    else
      var last := selfTimes[|selfTimes| - 1];
      SelfAt(selfTimes[..|selfTimes| - 1], path) + if last.0 == path then last.1 else 0
  }

  /** The ticks of a node are the self times of the scopes that ended at its path. */
  lemma {:induction false} TicksAreSelfTimes(events: seq<Event>, path: Path)
    requires Run(events).Some?
    ensures TicksAt(Run(events).value.ticks, path) == SelfAt(Run(events).value.selfTimes, path)
    decreases |events|
  {
    if events != [] {
      var front, e := events[..|events| - 1], events[|events| - 1];
      TicksAreSelfTimes(front, path);
      var s, s' := Run(front).value, Run(events).value;
      if e.End? {
        assert s'.selfTimes[..|s'.selfTimes| - 1] == s.selfTimes;
      }
    }
  }

  lemma {:induction false} SelfAtNonNegative(selfTimes: seq<(Path, int)>, path: Path)
    requires NonNegative(selfTimes)
    ensures SelfAt(selfTimes, path) >= 0
  {
    if selfTimes != [] {
      SelfAtNonNegative(selfTimes[..|selfTimes| - 1], path);
    }
  }

  /** With events in the order of time, the ticks of every node are nonnegative. */
  lemma {:induction false} TicksNonNegative(events: seq<Event>, path: Path)
    requires Run(events).Some? && InOrder(events)
    ensures TicksAt(Run(events).value.ticks, path) >= 0
  {
    RunNonNegative(events);
    TicksAreSelfTimes(events, path);
    SelfAtNonNegative(Run(events).value.selfTimes, path);
  }

  lemma {:induction false} RunNonNegative(events: seq<Event>)
    requires Run(events).Some? && InOrder(events)
    ensures NestedAfter(Run(events).value, events) && NonNegative(Run(events).value.selfTimes)
    decreases |events|
  {
    if events != [] {
      var front, e := events[..|events| - 1], events[|events| - 1];
      var s, s' := Run(front).value, Run(events).value;
      assert InOrder(front) by { assert forall i :: 0 <= i < |front| ==> front[i] == events[i]; }
      RunNonNegative(front);
      assert events == front + [e];
      if e.Begin? || e.End? {
        assert At(e, e.tid);
        assert Nested(StackOf(s.stacks, e.tid), e.ts);
      }
      forall tid, now | forall i :: 0 <= i < |events| && At(events[i], tid) ==> events[i].ts <= now
        ensures Nested(StackOf(s'.stacks, tid), now)
      {
        assert forall i :: 0 <= i < |front| && At(front[i], tid) ==> front[i] == events[i];
        assert Nested(StackOf(s.stacks, tid), now);
        assert At(e, tid) ==> events[|events| - 1].ts <= now;
        NestedStep(s, e, tid, now);
      }
      if e.End? {
        PoppedNested(StackOf(s.stacks, e.tid), e.ts, e.ts);
      }
    }
  }

  lemma {:induction false} NestedStep(s: State, e: Event, tid: ThreadId, now: int)
    requires Step(s, e).Some? && Nested(StackOf(s.stacks, tid), now)
    requires At(e, tid) ==> Nested(StackOf(s.stacks, tid), e.ts) && e.ts <= now
    ensures Nested(StackOf(Step(s, e).value.stacks, tid), now)
  {
    if At(e, tid) {
      if e.Begin? {
        PushedNested(StackOf(s.stacks, tid), e.caption, e.ts, now);
      } else {
        PoppedNested(StackOf(s.stacks, tid), e.ts, now);
      }
    }
  }

  /** The body of the event loop, on the state without what is kept for comparison. */
  method Process(stacks0: Stacks, ticks0: map<Path, int>, e: Event, ghost s: State)
    returns (ok: bool, stacks: Stacks, ticks: map<Path, int>)
    requires s.stacks == stacks0 && s.ticks == ticks0
    ensures ok <==> Step(s, e).Some?
    ensures ok ==> Step(s, e).value.stacks == stacks && Step(s, e).value.ticks == ticks
  {
    ok, stacks, ticks := true, stacks0, ticks0;
    if e.Blank? {
      return;
    }
    if e.tid !in stacks {
      stacks := stacks[e.tid := []];
    }
    var stack := stacks[e.tid];
    if e.Begin? {
      stacks := stacks[e.tid := stack + [Frame(e.caption, e.ts, 0)]];
    } else if e.End? {
      if stack == [] {
        ok := false;
        return;
      }
      var path, rawticks, self, rest := EndScope(stack, e.ts);
      ticks := ticks[path := TicksAt(ticks, path) + self];
      stacks := stacks[e.tid := rest];
    }
  }

  /** The event loop; it fails exactly when a scope ends that has not begun. */
  method Analyse(events: seq<Event>) returns (result: Option<map<Path, int>>)
    ensures result == if Run(events).None? then None else Some(Run(events).value.ticks)
  {
    var stacks: Stacks := map[];
    var ticks: map<Path, int> := map[];
    for i := 0 to |events|
      invariant Run(events[..i]).Some? && Run(events[..i]).value.stacks == stacks && Run(events[..i]).value.ticks == ticks
    {
      RunStep(events, i);
      var ok;
      ok, stacks, ticks := Process(stacks, ticks, events[i], Run(events[..i]).value);
      if !ok {
        RunFails(events, i + 1);
        return None;
      }
    }
    assert events[..|events|] == events;
    return Some(ticks);
  }

  /** The innermost scope ends: its duration, its self time, and the stack without it. */
  method EndScope(stack0: seq<Frame>, ts: int) returns (path: Path, rawticks: int, ticks: int, stack: seq<Frame>)
    requires stack0 != []
    ensures path == Labels(stack0) && rawticks == ts - stack0[|stack0| - 1].begin
    ensures ticks == rawticks - stack0[|stack0| - 1].childts && stack == Popped(stack0, rawticks)
  {
    var begin := stack0[|stack0| - 1];
    path := Labels(stack0);
    rawticks := ts - begin.begin;
    ticks := rawticks - begin.childts;
    stack := stack0[..|stack0| - 1];
    if |stack| > 0 {
      var parent := stack[|stack| - 1];
      assert stack[..|stack| - 1] == stack0[..|stack0| - 2];
      stack := stack[..|stack| - 1] + [parent.(childts := parent.childts + rawticks)];
    }
  }

  lemma {:induction false} RunStep(events: seq<Event>, i: nat)
    requires i < |events|
    ensures Run(events[..i + 1]) == if Run(events[..i]).None? then None else Step(Run(events[..i]).value, events[i])
  {
    assert events[..i + 1][..i] == events[..i];
  }

  lemma {:induction false} RunFails(events: seq<Event>, i: nat)
    requires i <= |events| && Run(events[..i]).None?
    ensures Run(events).None?
    decreases |events| - i
  {
    if i < |events| {
      RunStep(events, i);
      RunFails(events, i + 1);
    } else {
      assert events[..i] == events;
    }
  }
}
