/**
 Stores moving between thread cells, wrapped futures, poll frames and attach guards
 (dcontext/src/future_ext.rs:21-31, dcontext/src/attach.rs:35-41, dcontext/src/lib.rs:226-229,
 dcontext/src/store.rs:383-398), as a step system over any number of threads and tasks.

 A poll frame is one activation of `WithContext::poll`: it starts by swapping the wrapper's store
 with the thread's cell and ends by swapping back. Whatever runs on a thread runs on behalf of its
 innermost poll frame's task, or of nobody if it has none.

 Attach guards may be dropped in any order. Polls do not unwind, and an attach guard made inside a poll is
 dropped inside it.
 */
module Cells {
  import opened Wrappers
  import Scopes

  type ThreadId = nat
  type TaskId = nat
  type StoreId = nat

  /** A store with an identity, so that it can be followed as it moves. */
  datatype Live = Live(id: StoreId, state: Scopes.State)

  datatype Frame =
    | Poll(task: TaskId, prev: Option<Live>)
    | Attach(prev: Option<Live>)

  /** A thread's cell, and the frames on its stack that hold stores, innermost last. */
  datatype Thread = Thread(cell: Option<Live>, frames: seq<Frame>)

  /** A wrapped future: its store slot, and the thread that is polling it, if any. */
  datatype Wrapper = Wrapper(store: Option<Live>, polledBy: Option<ThreadId>)

  datatype World = World(threads: map<ThreadId, Thread>, wrappers: map<TaskId, Wrapper>)

  /** The guard that ends is given by its place among those its owner still holds, the outermost being 0. */
  datatype Action =
    | BeginPoll(task: TaskId)
    | EndPoll
    | Apply(f: Scopes.State -> Scopes.State)
    | BeginAttach(id: StoreId, make: Option<Scopes.State> -> Scopes.State)
    | EndAttach(guard: nat)
    | Spawn(task: TaskId, id: StoreId, make: Option<Scopes.State> -> Scopes.State)

  datatype Event = Event(thread: ThreadId, action: Action)

  function StateOf(store: Option<Live>): Option<Scopes.State> {
    if store.Some? then Some(store.value.state) else None
  }

  /** `try_apply`: a store is taken, changed and put back; an empty cell is left alone. */
  function Applied(store: Option<Live>, f: Scopes.State -> Scopes.State): Option<Live> {
    if store.Some? then Some(Live(store.value.id, f(store.value.state))) else None
  }

  function Last(frames: seq<Frame>): Frame
    requires frames != []
  {
    frames[|frames| - 1]
  }

  function Below(frames: seq<Frame>): seq<Frame>
    requires frames != []
  {
    frames[..|frames| - 1]
  }

  function Without<T>(s: seq<T>, i: nat): seq<T>
    requires i < |s|
  {
    s[..i] + s[i + 1..]
  }

  /** How many frames there are up to and including the innermost poll; above it are its own attach guards. */
  function Start(frames: seq<Frame>): nat {
    if frames == [] then 0 else if Last(frames).Poll? then |frames| else Start(Below(frames))
  }

  predicate Enabled(w: World, e: Event) {
    e.thread in w.threads &&
    var t := w.threads[e.thread];
    match e.action
    case BeginPoll(task) => task in w.wrappers && w.wrappers[task].polledBy.None?
    case EndPoll => t.frames != [] && Last(t.frames).Poll? && Last(t.frames).task in w.wrappers
    case EndAttach(guard) => Start(t.frames) + guard < |t.frames|
    case Spawn(task, _, _) => task !in w.wrappers
    case _ => true
  }

  function Next(w: World, e: Event): World
    requires Enabled(w, e)
  {
    var t := w.threads[e.thread];
    match e.action
    case BeginPoll(task) =>
      World(w.threads[e.thread := Thread(w.wrappers[task].store, t.frames + [Poll(task, t.cell)])],
            w.wrappers[task := Wrapper(None, Some(e.thread))])
    case EndPoll =>
      var top := Last(t.frames);
      World(w.threads[e.thread := Thread(top.prev, Below(t.frames))],
            w.wrappers[top.task := Wrapper(t.cell, None)])
    case Apply(f) =>
      w.(threads := w.threads[e.thread := t.(cell := Applied(t.cell, f))])
    case BeginAttach(id, make) =>
      w.(threads := w.threads[e.thread := Thread(Some(Live(id, make(StateOf(t.cell)))), t.frames + [Attach(t.cell)])])
    case EndAttach(guard) =>
      var i := Start(t.frames) + guard;
      w.(threads := w.threads[e.thread := Thread(t.frames[i].prev, Without(t.frames, i))])
    case Spawn(task, id, make) =>
      w.(wrappers := w.wrappers[task := Wrapper(Some(Live(id, make(StateOf(t.cell)))), None)])
  }

  predicate Legal(w: World, events: seq<Event>)
    decreases events
  {
    events != [] ==> Enabled(w, events[0]) && Legal(Next(w, events[0]), events[1..])
  }

  function Run(w: World, events: seq<Event>): World
    requires Legal(w, events)
    decreases events
  {
    if events == [] then w else Run(Next(w, events[0]), events[1..])
  }

  // ---- Who runs ----

  datatype Owner = Ambient(thread: ThreadId) | Task(task: TaskId)

  /** The innermost poll's task, if any. */
  function Runner(frames: seq<Frame>): Option<TaskId> {
    if frames == [] then None
    else if Last(frames).Poll? then Some(Last(frames).task)
    else Runner(Below(frames))
  }

  function OwnerOn(w: World, thread: ThreadId): Owner
    requires thread in w.threads
  {
    var r := Runner(w.threads[thread].frames);
    if r.Some? then Task(r.value) else Ambient(thread)
  }

  predicate Polls(frames: seq<Frame>, task: TaskId) {
    exists i :: 0 <= i < |frames| && frames[i].Poll? && frames[i].task == task
  }

  ghost predicate Marked(frames: seq<Frame>, wrappers: map<TaskId, Wrapper>, thread: ThreadId) {
    forall i :: 0 <= i < |frames| && frames[i].Poll? ==>
      frames[i].task in wrappers && wrappers[frames[i].task].polledBy == Some(thread)
  }

  ghost predicate DistinctPolls(frames: seq<Frame>) {
    forall i, j :: 0 <= i < j < |frames| && frames[i].Poll? && frames[j].Poll? ==> frames[i].task != frames[j].task
  }

  /** Polls on a stack are of different wrappers, and exactly of those marked as polled by the thread. */
  ghost predicate WellPolled(w: World) {
    && (forall th :: th in w.threads ==>
          Marked(w.threads[th].frames, w.wrappers, th) && DistinctPolls(w.threads[th].frames))
    && (forall k :: k in w.wrappers && w.wrappers[k].polledBy.Some? ==>
          w.wrappers[k].polledBy.value in w.threads && Polls(w.threads[w.wrappers[k].polledBy.value].frames, k))
  }

  // ---- What a task has, wherever its parts are ----

  /** An owner's current store and the stores its attach guards hold, outermost first. */
  datatype Local = Local(current: Option<Live>, held: seq<Option<Live>>)

  /**
   The part of a thread that belongs to `who`'s poll frame (the bottom of the stack for nobody):
   `cell` is what the innermost of the frames gone through so far replaced, `held` their guards.
   */
  function Section(cell: Option<Live>, frames: seq<Frame>, held: seq<Option<Live>>, who: Option<TaskId>): Local
    decreases frames
  {
    if frames == [] then Local(cell, held)
    else
      match Last(frames)
      case Attach(prev) => Section(cell, Below(frames), [prev] + held, who)
      case Poll(task, prev) =>
        if who == Some(task) then Local(cell, held) else Section(prev, Below(frames), [], who)
  }

  predicate Exists(w: World, o: Owner) {
    match o
    case Ambient(th) => th in w.threads
    case Task(k) => k in w.wrappers && (w.wrappers[k].polledBy.Some? ==> w.wrappers[k].polledBy.value in w.threads)
  }

  function LocalOf(w: World, o: Owner): Local
    requires Exists(w, o)
  {
    match o
    case Ambient(th) => Section(w.threads[th].cell, w.threads[th].frames, [], None)
    case Task(k) =>
      var p := w.wrappers[k];
      if p.polledBy.None? then Local(p.store, [])
      else Section(w.threads[p.polledBy.value].cell, w.threads[p.polledBy.value].frames, [], Some(k))
  }

  /** What an action does to the owner that performs it, seen alone; polling is not visible. */
  function Alone(l: Local, a: Action): Local {
    match a
    case Apply(f) => l.(current := Applied(l.current, f))
    case BeginAttach(id, make) => Local(Some(Live(id, make(StateOf(l.current)))), l.held + [l.current])
    case EndAttach(guard) => if guard < |l.held| then Local(l.held[guard], Without(l.held, guard)) else l
    case _ => l
  }

  // ---- Lemmas about sections ----

  /** The stores held by the attach guards above the innermost poll. */
  function OwnHeld(frames: seq<Frame>): seq<Option<Live>> {
    if frames == [] || Last(frames).Poll? then [] else OwnHeld(Below(frames)) + [Last(frames).prev]
  }

  lemma {:induction false} RunnersSection(cell: Option<Live>, frames: seq<Frame>, held: seq<Option<Live>>)
    ensures Section(cell, frames, held, Runner(frames)) == Local(cell, OwnHeld(frames) + held)
  {
    if frames == [] || Last(frames).Poll? {
      assert OwnHeld(frames) + held == held;
    } else {
      RunnersSection(cell, Below(frames), [Last(frames).prev] + held);
      assert OwnHeld(Below(frames)) + ([Last(frames).prev] + held) == OwnHeld(frames) + held;
    }
  }

  /** Everyone else's section lies below the runner's. */
  lemma {:induction false} OthersSection(cell: Option<Live>, frames: seq<Frame>, held: seq<Option<Live>>,
                                         who: Option<TaskId>)
    requires who != Runner(frames) && (who.Some? ==> Polls(frames, who.value))
    ensures Start(frames) <= |frames|
    ensures Section(cell, frames, held, who) == Section(None, frames[..Start(frames)], [], who)
  {
    if frames != [] && Last(frames).Poll? {
      assert frames[..|frames|] == frames;
    } else if frames != [] {
      if who.Some? { PollsBelow(frames, who.value); }
      OthersSection(cell, Below(frames), [Last(frames).prev] + held, who);
      assert Below(frames)[..Start(frames)] == frames[..Start(frames)];
    }
  }

  /** Where the runner's own guards start, and what they hold. */
  lemma {:induction false} StartOf(frames: seq<Frame>)
    ensures var n := Start(frames);
            && n <= |frames|
            && (forall i :: n <= i < |frames| ==> frames[i].Attach?)
            && (n > 0 ==> frames[n - 1].Poll?)
            && |OwnHeld(frames)| == |frames| - n
            && (forall j :: 0 <= j < |frames| - n ==> OwnHeld(frames)[j] == frames[n + j].prev)
  {
    if frames != [] && Last(frames).Attach? {
      StartOf(Below(frames));
    }
  }

  lemma {:induction false} StartIs(frames: seq<Frame>, n: nat)
    requires n <= |frames| && (n > 0 ==> frames[n - 1].Poll?)
    requires forall i :: n <= i < |frames| ==> frames[i].Attach?
    ensures Start(frames) == n
    ensures Runner(frames) == if n > 0 then Some(frames[n - 1].task) else None
    decreases |frames|
  {
    if n < |frames| {
      StartIs(Below(frames), n);
    }
  }

  /** Taking one of the runner's guards off the stack leaves everything below them, and the other guards. */
  lemma Removal(frames: seq<Frame>, guard: nat)
    requires Start(frames) + guard < |frames|
    ensures var n, left := Start(frames), Without(frames, Start(frames) + guard);
            && n <= |left| && Start(left) == n && Runner(left) == Runner(frames)
            && left[..n] == frames[..n]
            && guard < |OwnHeld(frames)| && OwnHeld(left) == Without(OwnHeld(frames), guard)
            && OwnHeld(frames)[guard] == frames[n + guard].prev
  {
    var n := Start(frames);
    var left := Without(frames, n + guard);
    StartOf(frames);
    StartIs(frames, n);
    StartIs(left, n);
    StartOf(left);
  }

  lemma PollsBelow(frames: seq<Frame>, task: TaskId)
    requires frames != [] && Polls(frames, task) && !(Last(frames).Poll? && Last(frames).task == task)
    ensures Polls(Below(frames), task)
  {
    var i :| 0 <= i < |frames| && frames[i].Poll? && frames[i].task == task;
    assert Below(frames)[i] == frames[i];
  }

  lemma PollsKept(frames: seq<Frame>, guard: nat, task: TaskId)
    requires Start(frames) + guard < |frames| && Polls(frames, task)
    ensures Polls(Without(frames, Start(frames) + guard), task)
  {
    StartOf(frames);
    var i :| 0 <= i < |frames| && frames[i].Poll? && frames[i].task == task;
    assert Without(frames, Start(frames) + guard)[i] == frames[i];
  }

  lemma PollsAbove(frames: seq<Frame>, f: Frame, task: TaskId)
    requires Polls(frames, task)
    ensures Polls(frames + [f], task)
  {
    var i :| 0 <= i < |frames| && frames[i].Poll? && frames[i].task == task;
    assert (frames + [f])[i] == frames[i];
  }

  lemma Pushed(frames: seq<Frame>, f: Frame)
    ensures Last(frames + [f]) == f && Below(frames + [f]) == frames
  {
  }

  lemma {:induction false} RunnerPolls(frames: seq<Frame>)
    requires Runner(frames).Some?
    ensures Polls(frames, Runner(frames).value)
  {
    if Last(frames).Poll? {
      assert frames[|frames| - 1].task == Runner(frames).value;
    } else {
      RunnerPolls(Below(frames));
      var i :| 0 <= i < |Below(frames)| && Below(frames)[i].Poll? && Below(frames)[i].task == Runner(frames).value;
      assert frames[i] == Below(frames)[i];
    }
  }

  /** The frames below the runner's guards stay, and so does the runner. */
  lemma BaseKept(w: World, e: Event)
    requires Enabled(w, e) && (e.action.Apply? || e.action.BeginAttach? || e.action.EndAttach?)
    ensures var frames, frames' := w.threads[e.thread].frames, Next(w, e).threads[e.thread].frames;
            && Start(frames) <= |frames| && Start(frames) <= |frames'|
            && Start(frames') == Start(frames) && Runner(frames') == Runner(frames)
            && frames'[..Start(frames)] == frames[..Start(frames)]
            && (forall k :: Polls(frames, k) ==> Polls(frames', k))
  {
    var frames := w.threads[e.thread].frames;
    StartOf(frames);
    match e.action
    case BeginAttach(_, _) =>
      Pushed(frames, Attach(w.threads[e.thread].cell));
      forall k | Polls(frames, k) ensures Polls(frames + [Attach(w.threads[e.thread].cell)], k) {
        PollsAbove(frames, Attach(w.threads[e.thread].cell), k);
      }
    case EndAttach(guard) =>
      Removal(frames, guard);
      forall k | Polls(frames, k) ensures Polls(Without(frames, Start(frames) + guard), k) {
        PollsKept(frames, guard, k);
      }
    case _ =>
  }

  // ---- The marks stay right ----

  lemma PollsFollow(w: World, e: Event, k: TaskId)
    requires WellPolled(w) && Enabled(w, e)
    requires k in Next(w, e).wrappers && Next(w, e).wrappers[k].polledBy.Some?
    ensures var th := Next(w, e).wrappers[k].polledBy.value;
            th in Next(w, e).threads && Polls(Next(w, e).threads[th].frames, k)
  {
    var w', frames, cell := Next(w, e), w.threads[e.thread].frames, w.threads[e.thread].cell;
    match e.action
    case BeginPoll(task) =>
      if k == task {
        var frames' := w'.threads[e.thread].frames;
        assert frames'[|frames|].Poll? && frames'[|frames|].task == task;
      } else if w.wrappers[k].polledBy == Some(e.thread) {
        PollsAbove(frames, Poll(task, cell), k);
      }
    case EndPoll => if w.wrappers[k].polledBy == Some(e.thread) { PollsBelow(frames, k); }
    case Spawn(_, _, _) =>
    case _ => BaseKept(w, e);
  }

  lemma NextMarked(w: World, e: Event, th: ThreadId)
    requires WellPolled(w) && Enabled(w, e) && th in Next(w, e).threads
    ensures Marked(Next(w, e).threads[th].frames, Next(w, e).wrappers, th)
    ensures DistinctPolls(Next(w, e).threads[th].frames)
  {
    assert Marked(w.threads[th].frames, w.wrappers, th) && DistinctPolls(w.threads[th].frames);
  }

  lemma NextWellPolled(w: World, e: Event)
    requires WellPolled(w) && Enabled(w, e)
    ensures WellPolled(Next(w, e))
  {
    var w' := Next(w, e);
    forall k | k in w'.wrappers && w'.wrappers[k].polledBy.Some?
      ensures w'.wrappers[k].polledBy.value in w'.threads && Polls(w'.threads[w'.wrappers[k].polledBy.value].frames, k)
    {
      PollsFollow(w, e, k);
    }
    forall th | th in w'.threads
      ensures Marked(w'.threads[th].frames, w'.wrappers, th) && DistinctPolls(w'.threads[th].frames)
    {
      NextMarked(w, e, th);
    }
  }

  // ---- One step ----

  /** The runner's part, where event `e` happens. */
  lemma RunnerStep(w: World, e: Event)
    requires Enabled(w, e) && (e.action.Apply? || e.action.BeginAttach? || e.action.EndAttach?)
    ensures var t, t' := w.threads[e.thread], Next(w, e).threads[e.thread];
            var who := Runner(t.frames);
            Section(t'.cell, t'.frames, [], who) == Alone(Section(t.cell, t.frames, [], who), e.action)
  {
    var t, t' := w.threads[e.thread], Next(w, e).threads[e.thread];
    BaseKept(w, e);
    RunnersSection(t.cell, t.frames, []);
    RunnersSection(t'.cell, t'.frames, []);
    assert OwnHeld(t.frames) + [] == OwnHeld(t.frames) && OwnHeld(t'.frames) + [] == OwnHeld(t'.frames);
    match e.action
    case BeginAttach(_, _) => Pushed(t.frames, Attach(t.cell));
    case EndAttach(guard) => Removal(t.frames, guard);
    case _ =>
  }

  /** Anybody else's part on the thread where event `e` happens. */
  lemma OthersStep(w: World, e: Event, who: Option<TaskId>)
    requires Enabled(w, e) && (e.action.Apply? || e.action.BeginAttach? || e.action.EndAttach?)
    requires who != Runner(w.threads[e.thread].frames) && (who.Some? ==> Polls(w.threads[e.thread].frames, who.value))
    ensures var t, t' := w.threads[e.thread], Next(w, e).threads[e.thread];
            Section(t'.cell, t'.frames, [], who) == Section(t.cell, t.frames, [], who)
  {
    var t, t' := w.threads[e.thread], Next(w, e).threads[e.thread];
    BaseKept(w, e);
    OthersSection(t.cell, t.frames, [], who);
    OthersSection(t'.cell, t'.frames, [], who);
  }

  /** A step does to its owner what it does alone, and nothing to anybody else; polls do nothing to anybody. */
  lemma StepLocal(w: World, e: Event, o: Owner)
    requires WellPolled(w) && Enabled(w, e) && Exists(w, o)
    ensures Exists(Next(w, e), o)
    ensures LocalOf(Next(w, e), o)
         == if o == OwnerOn(w, e.thread) then Alone(LocalOf(w, o), e.action) else LocalOf(w, o)
  {
    NextWellPolled(w, e);
    var t := w.threads[e.thread];
    var onThread := o == Ambient(e.thread) || (o.Task? && w.wrappers[o.task].polledBy == Some(e.thread));
    assert Marked(t.frames, w.wrappers, e.thread);
    if Runner(t.frames).Some? { RunnerPolls(t.frames); }
    if onThread {
      var who := if o.Task? then Some(o.task) else None;
      match e.action
      case BeginPoll(task) => Pushed(t.frames, Poll(task, t.cell));
      case EndPoll =>
      case Spawn(_, _, _) =>
      case _ => if who == Runner(t.frames) { RunnerStep(w, e); } else { OthersStep(w, e, who); }
    } else if e.action.BeginPoll? && o == Task(e.action.task) {
      Pushed(t.frames, Poll(e.action.task, t.cell));
    }
  }

  /** What runs on a thread sees its own store in the thread's cell. */
  lemma CellIsOwn(w: World, thread: ThreadId)
    requires WellPolled(w) && thread in w.threads
    ensures Exists(w, OwnerOn(w, thread)) && w.threads[thread].cell == LocalOf(w, OwnerOn(w, thread)).current
  {
    var t := w.threads[thread];
    assert Marked(t.frames, w.wrappers, thread);
    if Runner(t.frames).Some? { RunnerPolls(t.frames); }
    RunnersSection(t.cell, t.frames, []);
  }

  // ---- Isolation ----

  /** What `o` does in a schedule. */
  function DoneBy(w: World, events: seq<Event>, o: Owner): seq<Action>
    requires Legal(w, events)
    decreases events
  {
    if events == [] then []
    else
      (if OwnerOn(w, events[0].thread) == o then [events[0].action] else [])
      + DoneBy(Next(w, events[0]), events[1..], o)
  }

  /** The cell each time `o` is about to do something. */
  function SeenBy(w: World, events: seq<Event>, o: Owner): seq<Option<Live>>
    requires Legal(w, events)
    decreases events
  {
    if events == [] then []
    else
      (if OwnerOn(w, events[0].thread) == o then [w.threads[events[0].thread].cell] else [])
      + SeenBy(Next(w, events[0]), events[1..], o)
  }

  function RunAlone(l: Local, actions: seq<Action>): Local
    decreases actions
  {
    if actions == [] then l else RunAlone(Alone(l, actions[0]), actions[1..])
  }

  function SeenAlone(l: Local, actions: seq<Action>): seq<Option<Live>>
    decreases actions
  {
    if actions == [] then [] else [l.current] + SeenAlone(Alone(l, actions[0]), actions[1..])
  }

  /**
   Under every schedule of polls, nested polls, attaches and changes on any threads, what a task (or a
   thread outside all polls) sees in the cell, step by step, and what it ends up with, is what it
   would be if only its own steps had run. So a thread's own store changes only by steps outside polls.
   */
  lemma {:induction false} Isolation(w: World, events: seq<Event>, o: Owner)
    requires WellPolled(w) && Legal(w, events) && Exists(w, o)
    ensures Exists(Run(w, events), o)
    ensures LocalOf(Run(w, events), o) == RunAlone(LocalOf(w, o), DoneBy(w, events, o))
    ensures SeenBy(w, events, o) == SeenAlone(LocalOf(w, o), DoneBy(w, events, o))
    decreases events
  {
    if events != [] {
      var e, rest := events[0], events[1..];
      StepLocal(w, e, o);
      NextWellPolled(w, e);
      CellIsOwn(w, e.thread);
      Isolation(Next(w, e), rest, o);
      if OwnerOn(w, e.thread) == o {
        assert DoneBy(w, events, o)[1..] == DoneBy(Next(w, e), rest, o);
      } else {
        assert DoneBy(w, events, o) == DoneBy(Next(w, e), rest, o);
      }
    }
  }

  /**
   What a step does to the store in the cell, which is its owner's: a change is applied to it, an attach
   replaces it by one made from it, and an empty cell stays empty under changes.
   */
  lemma StepOnStore(w: World, e: Event)
    requires WellPolled(w) && Enabled(w, e)
    ensures var before, after := w.threads[e.thread].cell, Next(w, e).threads[e.thread].cell;
            && Exists(w, OwnerOn(w, e.thread)) && before == LocalOf(w, OwnerOn(w, e.thread)).current
            && Exists(Next(w, e), OwnerOn(w, e.thread))
            && (match e.action
                case Apply(f) =>
                  && after == LocalOf(Next(w, e), OwnerOn(w, e.thread)).current
                  && (before.None? ==> after.None?)
                  && (before.Some? ==> after == Some(Live(before.value.id, f(before.value.state))))
                case BeginAttach(id, make) =>
                  && after == LocalOf(Next(w, e), OwnerOn(w, e.thread)).current
                  && (before.None? ==> after == Some(Live(id, make(None))))
                  && (before.Some? ==> after == Some(Live(id, make(Some(before.value.state)))))
                case Spawn(task, id, make) =>
                  && after == before
                  && (before.None? ==> Next(w, e).wrappers[task].store == Some(Live(id, make(None))))
                  && (before.Some? ==>
                        Next(w, e).wrappers[task].store == Some(Live(id, make(Some(before.value.state)))))
                case _ => true)
  {
    CellIsOwn(w, e.thread);
    StepLocal(w, e, OwnerOn(w, e.thread));
  }

  /** None of these steps is this owner's. */
  predicate OnlyOthers(w: World, events: seq<Event>, o: Owner)
    requires Legal(w, events)
    decreases events
  {
    events != [] ==> OwnerOn(w, events[0].thread) != o && OnlyOthers(Next(w, events[0]), events[1..], o)
  }

  lemma {:induction false} OthersChangeNothing(w: World, events: seq<Event>, o: Owner)
    requires WellPolled(w) && Legal(w, events) && Exists(w, o) && OnlyOthers(w, events, o)
    ensures WellPolled(Run(w, events)) && Exists(Run(w, events), o)
    ensures LocalOf(Run(w, events), o) == LocalOf(w, o)
    decreases events
  {
    if events != [] {
      StepLocal(w, events[0], o);
      NextWellPolled(w, events[0]);
      OthersChangeNothing(Next(w, events[0]), events[1..], o);
    }
  }

  /** A spawned task starts with the store made from its spawner's, and without guards. */
  lemma SpawnedLocal(w: World, e: Event)
    requires WellPolled(w) && Enabled(w, e) && e.action.Spawn?
    ensures var o := Task(e.action.task);
            && Exists(Next(w, e), o)
            && Exists(w, OwnerOn(w, e.thread))
            && LocalOf(Next(w, e), o)
               == Local(Some(Live(e.action.id, e.action.make(StateOf(LocalOf(w, OwnerOn(w, e.thread)).current)))), [])
  {
    CellIsOwn(w, e.thread);
  }

  // ---- A completed poll leaves the thread as it was ----

  /** Thread `th` keeps more than `n` frames throughout. */
  predicate StaysAbove(w: World, events: seq<Event>, th: ThreadId, n: nat)
    requires Legal(w, events)
    decreases events
  {
    th in w.threads && |w.threads[th].frames| > n &&
    (events != [] ==> StaysAbove(Next(w, events[0]), events[1..], th, n))
  }

  /** As long as a poll goes on, it and everything below it stay. */
  lemma {:induction false} FramesKept(w: World, events: seq<Event>, th: ThreadId, n: nat)
    requires Legal(w, events) && StaysAbove(w, events, th, n) && w.threads[th].frames[n].Poll?
    ensures th in Run(w, events).threads && |Run(w, events).threads[th].frames| > n
    ensures Run(w, events).threads[th].frames[..n + 1] == w.threads[th].frames[..n + 1]
    decreases events
  {
    if events != [] {
      var w' := Next(w, events[0]);
      var frames, frames' := w.threads[th].frames, w'.threads[th].frames;
      StartOf(frames);
      assert n < Start(frames);
      assert |frames'| > n;
      assert frames'[..n + 1] == frames[..n + 1];
      assert frames'[..n + 1][n] == frames[..n + 1][n];
      FramesKept(w', events[1..], th, n);
    }
  }

  /**
   Whatever happens in between, on this thread and on others, when a poll ends that began here, the
   thread's cell and stack are exactly what they were, and the wrapper has what was in the cell.
   */
  lemma EndRestores(w: World, begin: Event, events: seq<Event>, end: Event)
    requires begin.thread == end.thread && begin.action.BeginPoll? && end.action.EndPoll?
    requires Enabled(w, begin) && Legal(Next(w, begin), events) && Enabled(Run(Next(w, begin), events), end)
    requires StaysAbove(Next(w, begin), events, begin.thread, |w.threads[begin.thread].frames|)
    requires |Run(Next(w, begin), events).threads[begin.thread].frames| == |w.threads[begin.thread].frames| + 1
    ensures var before := Run(Next(w, begin), events);
            var after := Next(before, end);
            && after.threads[begin.thread] == w.threads[begin.thread]
            && begin.action.task in after.wrappers
            && after.wrappers[begin.action.task] == Wrapper(before.threads[begin.thread].cell, None)
  {
    var th, n := begin.thread, |w.threads[begin.thread].frames|;
    var w1 := Next(w, begin);
    var before := Run(w1, events);
    FramesKept(w1, events, th, n);
    var frames, frames1 := before.threads[th].frames, w1.threads[th].frames;
    assert frames == frames[..n + 1] == frames1[..n + 1] == frames1;
    assert Below(frames1) == w.threads[th].frames;
  }

  // ---- Ownership ----

  /** The places that can hold a store. */
  datatype Place = Cell(thread: ThreadId) | Prev(thread: ThreadId, frame: nat) | Slot(task: TaskId)

  function At(w: World, p: Place): Option<Live> {
    match p
    case Cell(th) => if th in w.threads then w.threads[th].cell else None
    case Prev(th, i) => if th in w.threads && i < |w.threads[th].frames| then w.threads[th].frames[i].prev else None
    case Slot(k) => if k in w.wrappers then w.wrappers[k].store else None
  }

  function IdAt(w: World, p: Place): Option<StoreId> {
    if At(w, p).Some? then Some(At(w, p).value.id) else None
  }

  /** Where the store at `p` after a step was before it; nowhere if the place is empty or the store is new. */
  function Origin(w: World, e: Event, p: Place): Option<Place>
    requires Enabled(w, e)
  {
    var th, n := e.thread, |w.threads[e.thread].frames|;
    match e.action
    case BeginPoll(task) =>
      if p == Cell(th) then Some(Slot(task)) else if p == Prev(th, n) then Some(Cell(th))
      else if p == Slot(task) then None else Some(p)
    case EndPoll =>
      var task := Last(w.threads[th].frames).task;
      if p == Cell(th) then Some(Prev(th, n - 1)) else if p == Prev(th, n - 1) then None
      else if p == Slot(task) then Some(Cell(th)) else Some(p)
    case BeginAttach(_, _) =>
      if p == Cell(th) then None else if p == Prev(th, n) then Some(Cell(th)) else Some(p)
    case EndAttach(guard) =>
      var i := Start(w.threads[th].frames) + guard;
      if p == Cell(th) then Some(Prev(th, i))
      else if p.Prev? && p.thread == th && p.frame >= i then Some(Prev(th, p.frame + 1))
      else Some(p)
    case Spawn(task, _, _) => if p == Slot(task) then None else Some(p)
    case Apply(_) => Some(p)
  }

  /** The one new store a step makes, and where it puts it. */
  function Made(w: World, e: Event): Option<(Place, StoreId)> {
    match e.action
    case BeginAttach(id, _) => Some((Cell(e.thread), id))
    case Spawn(task, id, _) => Some((Slot(task), id))
    case _ => None
  }

  /** The one place whose store a step drops. */
  function Dropped(e: Event): Option<Place> {
    if e.action.EndAttach? then Some(Cell(e.thread)) else None
  }

  /** Polls find a store in every idle wrapper, and leave none in a wrapper being polled. */
  ghost predicate Stocked(w: World) {
    && (forall th :: th in w.threads ==> w.threads[th].cell.Some?)
    && (forall th, i :: th in w.threads && 0 <= i < |w.threads[th].frames| ==> w.threads[th].frames[i].prev.Some?)
    && (forall k :: k in w.wrappers ==> (w.wrappers[k].store.Some? <==> w.wrappers[k].polledBy.None?))
  }

  /** No store is in two places. */
  ghost predicate OnePlaceEach(w: World) {
    forall p, q :: p != q && IdAt(w, p).Some? && IdAt(w, q).Some? ==> IdAt(w, p) != IdAt(w, q)
  }

  ghost predicate Holds(w: World, id: StoreId) {
    exists p :: IdAt(w, p) == Some(id)
  }

  ghost predicate MakesFresh(w: World, e: Event) {
    Made(w, e).Some? ==> !Holds(w, Made(w, e).value.1)
  }

  lemma MarkedIdle(w: World, e: Event)
    requires WellPolled(w) && Enabled(w, e) && e.action.EndPoll?
    ensures w.wrappers[Last(w.threads[e.thread].frames).task].polledBy == Some(e.thread)
  {
    var frames := w.threads[e.thread].frames;
    assert Marked(frames, w.wrappers, e.thread);
    assert frames[|frames| - 1].Poll?;
  }

  lemma Moved(w: World, e: Event, p: Place)
    requires WellPolled(w) && Stocked(w) && Enabled(w, e)
    ensures var o := Origin(w, e, p);
            IdAt(Next(w, e), p) == if o.Some? then IdAt(w, o.value)
                                   else if Made(w, e).Some? && Made(w, e).value.0 == p then Some(Made(w, e).value.1)
                                   else None
  {
    if e.action.EndPoll? { MarkedIdle(w, e); }
  }

  /** Every store but a dropped one is somewhere afterwards. */
  lemma MovesTo(w: World, e: Event, p: Place) returns (q: Place)
    requires WellPolled(w) && Stocked(w) && Enabled(w, e) && IdAt(w, p).Some? && Some(p) != Dropped(e)
    ensures Origin(w, e, q) == Some(p)
  {
    if e.action.EndPoll? { MarkedIdle(w, e); }
    var th, n := e.thread, |w.threads[e.thread].frames|;
    match e.action
    case BeginPoll(task) => q := if p == Slot(task) then Cell(th) else if p == Cell(th) then Prev(th, n) else p;
    case EndPoll =>
      q := if p == Prev(th, n - 1) then Cell(th)
           else if p == Cell(th) then Slot(Last(w.threads[th].frames).task) else p;
    case BeginAttach(_, _) => q := if p == Cell(th) then Prev(th, n) else p;
    case EndAttach(guard) =>
      var i := Start(w.threads[th].frames) + guard;
      q := if p == Prev(th, i) then Cell(th)
           else if p.Prev? && p.thread == th && p.frame > i then Prev(th, p.frame - 1) else p;
    case _ => q := p;
  }

  lemma OriginsDiffer(w: World, e: Event, p: Place, q: Place)
    requires WellPolled(w) && Stocked(w) && Enabled(w, e) && p != q
    requires IdAt(Next(w, e), p).Some? && IdAt(Next(w, e), q).Some? && Origin(w, e, p).Some? && Origin(w, e, q).Some?
    ensures Origin(w, e, p) != Origin(w, e, q)
  {
    if e.action.EndPoll? { MarkedIdle(w, e); }
  }

  /**
   A step moves stores without copying or losing any: it keeps them one place each, every cell,
   frame and idle wrapper has one, and a store is held afterwards exactly if the step made it,
   or it was held before and is not the one an ending attach drops.
   */
  lemma StepConserves(w: World, e: Event)
    requires WellPolled(w) && Stocked(w) && OnePlaceEach(w) && Enabled(w, e) && MakesFresh(w, e)
    ensures Stocked(Next(w, e)) && OnePlaceEach(Next(w, e))
    ensures forall id :: Holds(Next(w, e), id) <==>
              (Holds(w, id) && (Dropped(e).Some? ==> IdAt(w, Dropped(e).value) != Some(id)))
              || (Made(w, e).Some? && Made(w, e).value.1 == id)
  {
    var w' := Next(w, e);
    StepStocked(w, e);
    forall p, q | p != q && IdAt(w', p).Some? && IdAt(w', q).Some? ensures IdAt(w', p) != IdAt(w', q) {
      Moved(w, e, p);
      Moved(w, e, q);
      if Origin(w, e, p).Some? && Origin(w, e, q).Some? { OriginsDiffer(w, e, p, q); }
    }
    forall id ensures Holds(w', id) <==>
                        (Holds(w, id) && (Dropped(e).Some? ==> IdAt(w, Dropped(e).value) != Some(id)))
                        || (Made(w, e).Some? && Made(w, e).value.1 == id)
    {
      HeldAfter(w, e, id);
    }
  }

  lemma StepStocked(w: World, e: Event)
    requires WellPolled(w) && Stocked(w) && Enabled(w, e)
    ensures Stocked(Next(w, e))
  {
  }

  lemma HeldAfter(w: World, e: Event, id: StoreId)
    requires WellPolled(w) && Stocked(w) && OnePlaceEach(w) && Enabled(w, e) && MakesFresh(w, e)
    ensures Holds(Next(w, e), id) <==>
              (Holds(w, id) && (Dropped(e).Some? ==> IdAt(w, Dropped(e).value) != Some(id)))
              || (Made(w, e).Some? && Made(w, e).value.1 == id)
  {
    var w' := Next(w, e);
    if p :| IdAt(w', p) == Some(id) {
      Moved(w, e, p);
    }
    if Made(w, e).Some? && Made(w, e).value.1 == id {
      Moved(w, e, Made(w, e).value.0);
    }
    if p :| IdAt(w, p) == Some(id) && Some(p) != Dropped(e) {
      var q := MovesTo(w, e, p);
      Moved(w, e, q);
    }
  }

  ghost predicate AllFresh(w: World, events: seq<Event>)
    requires Legal(w, events)
    decreases events
  {
    events != [] ==> MakesFresh(w, events[0]) && AllFresh(Next(w, events[0]), events[1..])
  }

  /** Over whole runs each live store stays in exactly one place, and no swap finds an empty cell or idle wrapper. */
  lemma {:induction false} RunConserves(w: World, events: seq<Event>)
    requires WellPolled(w) && Stocked(w) && OnePlaceEach(w) && Legal(w, events) && AllFresh(w, events)
    ensures WellPolled(Run(w, events)) && Stocked(Run(w, events)) && OnePlaceEach(Run(w, events))
    decreases events
  {
    if events != [] {
      StepConserves(w, events[0]);
      NextWellPolled(w, events[0]);
      RunConserves(Next(w, events[0]), events[1..]);
    }
  }
}
