/** Dining philosophers on semaphores (check_sync.c): every access to shared
    state is a step of its own, and any philosopher that can move may move next.
    The ring size and the number of meals are parameters. */
module SemPhilosophers {
  import opened Basics
  import opened PhilosopherRing
  import opened Semaphores

  datatype Pc =
    | Loop | Think | Eat | Quit
    | Down(put: bool) | Queued(put: bool)              // down(&mutex); queued on it
    | SetHungry | SetThinking
    | TestSelf(ph: Phase) | TestLeft(ph: Phase) | TestRight(ph: Phase) | SetEating(ph: Phase)
    | Grant(ph: Phase)                                 // up(&s[target])
    | Leave(put: bool)                                 // up(&mutex)
    | DownFork | WaitFork                              // down(&s[i]); queued on it

  /** `iter` is the loop counter; `meals` counts the meals, and no step reads it. */
  datatype State = State(
    n: nat,
    times: nat,
    mood: seq<Mood>,
    mutex: Sem<nat>,
    fork: seq<Sem<nat>>,
    pc: seq<Pc>,
    iter: seq<nat>,
    meals: seq<nat>)

  predicate Shape(s: State) {
    s.n >= 2 && |s.mood| == |s.fork| == |s.pc| == |s.iter| == |s.meals| == s.n
  }

  ghost predicate Initial(s: State) {
    && Shape(s)
    && s.mutex == Sem(1, [])
    && forall i :: 0 <= i < s.n ==>
      s.mood[i] == Thinking && s.fork[i] == Sem(0, []) && s.pc[i] == Loop && s.iter[i] == 0 && s.meals[i] == 0
  }

  /** Where phi_test_sema returns to. */
  function After(ph: Phase): Pc {
    match ph
    case Take => Leave(false)
    case PutLeft => TestSelf(PutRight)
    case PutRight => Leave(true)
  }

  /** Where a queued thread continues once the unit is handed to it. */
  function Resume(pc: Pc): Pc {
    match pc
    case Queued(put) => if put then SetThinking else SetHungry
    case WaitFork => Eat
    case _ => pc
  }

  predicate Enabled(s: State, p: nat)
    requires p < |s.pc|
  {
    !(s.pc[p].Queued? || s.pc[p].WaitFork? || s.pc[p].Quit?)
  }

  function Goto(s: State, p: nat, pc: Pc): State
    requires p < |s.pc|
  {
    s.(pc := s.pc[p := pc])
  }

  /** The woken thread continues; thread numbers are seat numbers. */
  function Wake(s: State, woken: Option<nat>): State {
    if woken.Some? && woken.value < |s.pc| then Goto(s, woken.value, Resume(s.pc[woken.value])) else s
  }

  predicate Testing(pc: Pc) {
    pc.TestSelf? || pc.TestLeft? || pc.TestRight? || pc.SetEating?
  }

  predicate UsingSemaphore(pc: Pc) {
    pc.Down? || pc.Leave? || pc.Grant? || pc.DownFork?
  }

  /** phi_test_sema up to the assignment of EATING. */
  function TestStep(s: State, p: nat): State
    requires Shape(s) && p < s.n && Testing(s.pc[p])
  {
    var ph := s.pc[p].ph;
    var t := Target(s.n, p, ph);
    match s.pc[p]
    case TestSelf(_) => Goto(s, p, if s.mood[t] == Hungry then TestLeft(ph) else After(ph))
    case TestLeft(_) => Goto(s, p, if s.mood[Left(s.n, t)] != Eating then TestRight(ph) else After(ph))
    case TestRight(_) => Goto(s, p, if s.mood[Right(s.n, t)] != Eating then SetEating(ph) else After(ph))
    case SetEating(_) => Goto(s.(mood := s.mood[t := Eating]), p, Grant(ph))
  }

  /** One up or down. */
  function SemaphoreStep(s: State, p: nat): State
    requires Shape(s) && p < s.n && UsingSemaphore(s.pc[p])
  {
    match s.pc[p]
    case Down(put) =>
      Goto(s.(mutex := DownSem(s.mutex, p)), p,
           if !Grants(s.mutex) then Queued(put) else if put then SetThinking else SetHungry)
    case Leave(put) => Wake(Goto(s.(mutex := UpSem(s.mutex)), p, if put then Loop else DownFork), Woken(s.mutex))
    case Grant(ph) =>
      var t := Target(s.n, p, ph);
      Wake(Goto(s.(fork := s.fork[t := UpSem(s.fork[t])]), p, After(ph)), Woken(s.fork[t]))
    case DownFork =>
      Goto(s.(fork := s.fork[p := DownSem(s.fork[p], p)]), p, if Grants(s.fork[p]) then Eat else WaitFork)
  }

  /** The loop, the two sleeps, and the assignments to the own entry. */
  function PlainStep(s: State, p: nat): State
    requires Shape(s) && p < s.n
  {
    match s.pc[p]
    case Loop =>
      Goto(s.(iter := s.iter[p := s.iter[p] + 1]), p, if s.iter[p] < s.times then Think else Quit)
    case Think => Goto(s, p, Down(false))
    case Eat => Goto(s.(meals := s.meals[p := s.meals[p] + 1]), p, Down(true))
    case SetHungry => Goto(s.(mood := s.mood[p := Hungry]), p, TestSelf(Take))
    case SetThinking => Goto(s.(mood := s.mood[p := Thinking]), p, TestSelf(PutLeft))
    case _ => s
  }

  /** One step of philosopher p. */
  function Step(s: State, p: nat): State
    requires Shape(s) && p < s.n
  {
    if Testing(s.pc[p]) then TestStep(s, p)
    else if UsingSemaphore(s.pc[p]) then SemaphoreStep(s, p)
    else PlainStep(s, p)
  }

  // ---------- the inductive invariant ----------

  /** Between down(&mutex) and up(&mutex). */
  predicate Inside(pc: Pc) {
    pc.SetHungry? || pc.SetThinking? || Testing(pc) || pc.Grant? || pc.Leave?
  }

  /** The holder has written EATING for t and not yet done up(&s[t]). */
  predicate GrantDue(s: State, h: Option<nat>, t: nat)
    requires h.Some? ==> h.value < s.n && h.value < |s.pc|
  {
    h.Some? && s.pc[h.value].Grant? && Target(s.n, h.value, s.pc[h.value].ph) == t
  }

  /** The holder is still going to test t, or is testing it. */
  predicate TestDue(s: State, h: Option<nat>, t: nat)
    requires h.Some? ==> h.value < s.n && h.value < |s.pc|
  {
    h.Some? &&
    var pc := s.pc[h.value];
    || (Testing(pc) && Target(s.n, h.value, pc.ph) == t)
    || ((Testing(pc) || pc.Grant?) && pc.ph == PutLeft && Right(s.n, h.value) == t)
  }

  /** What a philosopher's entry in the state array may be, by program counter. */
  function MoodsAt(pc: Pc): set<Mood> {
    match pc
    case Loop | Think | SetHungry | Quit => {Thinking}
    case Eat | SetThinking => {Eating}
    case Down(put) => {if put then Eating else Thinking}
    case Queued(put) => {if put then Eating else Thinking}
    case TestSelf(ph) => {if ph == Take then Hungry else Thinking}
    case TestLeft(ph) => {if ph == Take then Hungry else Thinking}
    case TestRight(ph) => {if ph == Take then Hungry else Thinking}
    case SetEating(ph) => {if ph == Take then Hungry else Thinking}
    case Grant(ph) => {if ph == Take then Eating else Thinking}
    case Leave(put) => if put then {Thinking} else {Hungry, Eating}
    case DownFork | WaitFork => {Hungry, Eating}
  }

  /** A philosopher that is EATING but has not yet passed down(&s[p]). */
  predicate OwedFork(pc: Pc, mood: Mood) {
    mood == Eating && (pc == Leave(false) || pc.DownFork? || pc.WaitFork?)
  }

  predicate ForkFits(p: nat, pc: Pc, mood: Mood, grantDue: bool, fork: Sem<nat>) {
    && fork.queue == (if pc.WaitFork? then [p] else [])
    && fork.value == (if OwedFork(pc, mood) && !grantDue then 1 else 0)
    && (pc.WaitFork? ==> (mood == Eating <==> grantDue))
  }

  /** What the holder has read is still true. */
  predicate HolderKnows(s: State, p: nat)
    requires Shape(s) && p < s.n
  {
    match s.pc[p]
    case TestLeft(ph) => s.mood[Target(s.n, p, ph)] == Hungry
    case TestRight(ph) =>
      var t := Target(s.n, p, ph);
      s.mood[t] == Hungry && s.mood[Left(s.n, t)] != Eating
    case SetEating(ph) =>
      var t := Target(s.n, p, ph);
      s.mood[t] == Hungry && s.mood[Left(s.n, t)] != Eating && s.mood[Right(s.n, t)] != Eating
    case Grant(ph) =>
      var t := Target(s.n, p, ph);
      s.mood[t] == Eating && (ph != Take ==> s.pc[t].DownFork? || s.pc[t].WaitFork?)
    case _ => true
  }

  predicate MutexFits(s: State, h: Option<nat>) {
    && Shape(s)
    && (h.Some? ==> h.value < s.n && HolderKnows(s, h.value))
    && s.mutex.value == (if h.None? then 1 else 0)
  }

  /** Seat i: who is inside, and what the state array and the fork semaphore hold. */
  predicate SeatFits(s: State, h: Option<nat>, i: nat)
    requires Shape(s) && (h.Some? ==> h.value < s.n) && i < s.n
  {
    && (Inside(s.pc[i]) <==> h == Some(i))
    && s.mood[i] in MoodsAt(s.pc[i])
    && ForkFits(i, s.pc[i], s.mood[i], GrantDue(s, h, i), s.fork[i])
  }

  /** Seat i does not eat beside its right neighbour, and is not forgotten: if it
      is hungry with both forks free, the holder is about to test it. */
  predicate SeatServed(s: State, h: Option<nat>, i: nat)
    requires Shape(s) && (h.Some? ==> h.value < s.n) && i < s.n
  {
    && !(s.mood[i] == Eating && s.mood[Right(s.n, i)] == Eating)
    && (s.mood[i] == Hungry && s.mood[Left(s.n, i)] != Eating && s.mood[Right(s.n, i)] != Eating
        ==> TestDue(s, h, i))
  }

  /** The threads waiting for the mutex. */
  ghost function Waiting(s: State): set<nat> {
    set i: nat | i < |s.pc| && s.pc[i].Queued?
  }

  ghost predicate InvAt(s: State, h: Option<nat>) {
    && MutexFits(s, h)
    && Lists(s.mutex, Waiting(s))
    && (forall i {:trigger SeatFits(s, h, i)} :: 0 <= i < s.n ==> SeatFits(s, h, i))
    && (forall i {:trigger SeatServed(s, h, i)} :: 0 <= i < s.n ==> SeatServed(s, h, i))
  }

  lemma InitialInv(s: State)
    requires Initial(s)
    ensures InvAt(s, None)
  {
    assert forall i :: 0 <= i < s.n ==> SeatFits(s, None, i) && SeatServed(s, None, i);
  }

  /** The holder after p's step. */
  function NextHolder(s: State, h: Option<nat>, p: nat): Option<nat>
    requires p < |s.pc|
  {
    if s.pc[p].Down? && Grants(s.mutex) then Some(p)
    else if s.pc[p].Leave? then Woken(s.mutex)
    else h
  }

  // ---------- the invariant is kept ----------

  /** What is known about the seats that a step of p can touch or look at. */
  predicate Near(s: State, h: Option<nat>, p: nat, i: nat) {
    && MutexFits(s, h)
    && p < s.n && i < s.n
    && SeatFits(s, h, p) && SeatFits(s, h, i)
    && (Woken(s.mutex).Some? ==> Woken(s.mutex).value < s.n && s.pc[Woken(s.mutex).value].Queued?)
  }

  predicate FitsAfter(s: State, h: Option<nat>, s': State, h': Option<nat>, i: nat) {
    Shape(s') && s'.n == s.n && i < s.n && (h'.Some? ==> h'.value < s.n) && SeatFits(s', h', i)
  }

  /** A seat that the step does not touch. */
  lemma OtherFits(s: State, h: Option<nat>, s': State, h': Option<nat>, i: nat)
    requires Shape(s) && (h.Some? ==> h.value < s.n) && i < s.n && SeatFits(s, h, i)
    requires Shape(s') && s'.n == s.n && (h'.Some? ==> h'.value < s.n)
    requires s'.pc[i] == s.pc[i] && s'.mood[i] == s.mood[i] && s'.fork[i] == s.fork[i]
    requires (h == Some(i)) == (h' == Some(i)) && GrantDue(s, h, i) == GrantDue(s', h', i)
    ensures SeatFits(s', h', i)
  {
  }

  lemma PlainFits(s: State, h: Option<nat>, p: nat, i: nat)
    requires Near(s, h, p, i) && Enabled(s, p) && !Testing(s.pc[p]) && !UsingSemaphore(s.pc[p])
    ensures FitsAfter(s, h, PlainStep(s, p), h, i)
  {
    if i != p {
      OtherFits(s, h, PlainStep(s, p), h, i);
    }
  }

  lemma TestFits(s: State, h: Option<nat>, p: nat, i: nat)
    requires Near(s, h, p, i) && Testing(s.pc[p])
    ensures FitsAfter(s, h, TestStep(s, p), h, i)
  {
    if i != p && (!s.pc[p].SetEating? || i != Target(s.n, p, s.pc[p].ph)) {
      OtherFits(s, h, TestStep(s, p), h, i);
    }
  }

  lemma DownFits(s: State, h: Option<nat>, p: nat, i: nat)
    requires Near(s, h, p, i) && (s.pc[p].Down? || s.pc[p].DownFork?)
    ensures FitsAfter(s, h, SemaphoreStep(s, p), NextHolder(s, h, p), i)
  {
    if i != p {
      OtherFits(s, h, SemaphoreStep(s, p), NextHolder(s, h, p), i);
    }
  }

  lemma LeaveFits(s: State, h: Option<nat>, p: nat, i: nat)
    requires Near(s, h, p, i) && s.pc[p].Leave?
    ensures FitsAfter(s, h, SemaphoreStep(s, p), Woken(s.mutex), i)
  {
    if i != p && Woken(s.mutex) != Some(i) {
      OtherFits(s, h, SemaphoreStep(s, p), Woken(s.mutex), i);
    }
  }

  lemma GrantFitsOther(s: State, h: Option<nat>, p: nat, i: nat)
    requires Near(s, h, p, i) && s.pc[p].Grant? && SeatFits(s, h, Target(s.n, p, s.pc[p].ph))
    requires i != p && i != Target(s.n, p, s.pc[p].ph)
    ensures FitsAfter(s, h, SemaphoreStep(s, p), h, i)
  {
    OtherFits(s, h, SemaphoreStep(s, p), h, i);
  }

  lemma GrantFitsOne(s: State, h: Option<nat>, p: nat, i: nat)
    requires Near(s, h, p, i) && s.pc[p].Grant? && SeatFits(s, h, Target(s.n, p, s.pc[p].ph))
    requires i == p || i == Target(s.n, p, s.pc[p].ph)
    ensures FitsAfter(s, h, SemaphoreStep(s, p), h, i)
  {
  }

  predicate ServedAfter(s: State, h: Option<nat>, s': State, h': Option<nat>, i: nat) {
    Shape(s') && s'.n == s.n && i < s.n && (h'.Some? ==> h'.value < s.n) && SeatServed(s', h', i)
  }

  predicate ServedNear(s: State, h: Option<nat>, p: nat, i: nat) {
    && Near(s, h, p, i)
    && SeatServed(s, h, i) && SeatServed(s, h, Left(s.n, i)) && SeatServed(s, h, Right(s.n, i))
  }

  lemma PlainServed(s: State, h: Option<nat>, p: nat, i: nat)
    requires ServedNear(s, h, p, i) && Enabled(s, p) && !Testing(s.pc[p]) && !UsingSemaphore(s.pc[p])
    ensures ServedAfter(s, h, PlainStep(s, p), h, i)
  {
  }

  lemma TestServed(s: State, h: Option<nat>, p: nat, i: nat)
    requires ServedNear(s, h, p, i) && Testing(s.pc[p])
    ensures ServedAfter(s, h, TestStep(s, p), h, i)
  {
  }

  lemma LeaveServed(s: State, h: Option<nat>, p: nat, i: nat)
    requires ServedNear(s, h, p, i) && s.pc[p].Leave?
    ensures ServedAfter(s, h, SemaphoreStep(s, p), NextHolder(s, h, p), i)
  {
  }

  lemma GrantServed(s: State, h: Option<nat>, p: nat, i: nat)
    requires ServedNear(s, h, p, i) && s.pc[p].Grant?
    ensures ServedAfter(s, h, SemaphoreStep(s, p), NextHolder(s, h, p), i)
  {
  }

  lemma DownServed(s: State, h: Option<nat>, p: nat, i: nat)
    requires ServedNear(s, h, p, i) && (s.pc[p].Down? || s.pc[p].DownFork?)
    ensures ServedAfter(s, h, SemaphoreStep(s, p), NextHolder(s, h, p), i)
  {
  }

  /** The seats the holder reads. */
  predicate NearHolder(s: State, h: Option<nat>, p: nat) {
    && Near(s, h, p, p)
    && (h.Some? ==>
         SeatFits(s, h, h.value) && SeatFits(s, h, Left(s.n, h.value)) && SeatFits(s, h, Right(s.n, h.value)))
  }

  lemma PlainMutex(s: State, h: Option<nat>, p: nat)
    requires NearHolder(s, h, p) && Enabled(s, p) && !Testing(s.pc[p]) && !UsingSemaphore(s.pc[p])
    ensures MutexFits(PlainStep(s, p), h)
  {
  }

  lemma TestMutex(s: State, h: Option<nat>, p: nat)
    requires NearHolder(s, h, p) && Testing(s.pc[p])
    ensures MutexFits(TestStep(s, p), h)
  {
  }

  lemma LeaveMutex(s: State, h: Option<nat>, p: nat)
    requires NearHolder(s, h, p) && s.pc[p].Leave?
    ensures MutexFits(SemaphoreStep(s, p), NextHolder(s, h, p))
  {
  }

  lemma GrantMutex(s: State, h: Option<nat>, p: nat)
    requires NearHolder(s, h, p) && s.pc[p].Grant?
    ensures MutexFits(SemaphoreStep(s, p), NextHolder(s, h, p))
  {
  }

  lemma DownMutex(s: State, h: Option<nat>, p: nat)
    requires NearHolder(s, h, p) && (s.pc[p].Down? || s.pc[p].DownFork?)
    ensures MutexFits(SemaphoreStep(s, p), NextHolder(s, h, p))
  {
  }

  lemma StepSeat(s: State, h: Option<nat>, p: nat, i: nat)
    requires InvAt(s, h) && p < s.n && i < s.n && Enabled(s, p)
    ensures FitsAfter(s, h, Step(s, p), NextHolder(s, h, p), i)
    ensures ServedAfter(s, h, Step(s, p), NextHolder(s, h, p), i)
  {
    NearAll(s, h, p, i);
    if Testing(s.pc[p]) {
      TestFits(s, h, p, i);
      TestServed(s, h, p, i);
    } else if s.pc[p].Leave? {
      LeaveFits(s, h, p, i);
      LeaveServed(s, h, p, i);
    } else if s.pc[p].Grant? {
      var t := Target(s.n, p, s.pc[p].ph);
      assert SeatFits(s, h, t);
      if i == p || i == t {
        GrantFitsOne(s, h, p, i);
      } else {
        GrantFitsOther(s, h, p, i);
      }
      GrantServed(s, h, p, i);
    } else if UsingSemaphore(s.pc[p]) {
      DownFits(s, h, p, i);
      DownServed(s, h, p, i);
    } else {
      PlainFits(s, h, p, i);
      PlainServed(s, h, p, i);
    }
  }

  lemma NearAll(s: State, h: Option<nat>, p: nat, i: nat)
    requires InvAt(s, h) && p < s.n && i < s.n
    ensures ServedNear(s, h, p, i) && NearHolder(s, h, p)
  {
    assert SeatFits(s, h, p) && SeatFits(s, h, i) && SeatServed(s, h, i);
    assert SeatServed(s, h, Left(s.n, i)) && SeatServed(s, h, Right(s.n, i));
    if h.Some? {
      assert SeatFits(s, h, h.value) && SeatFits(s, h, Left(s.n, h.value)) && SeatFits(s, h, Right(s.n, h.value));
    }
    if s.mutex.queue != [] {
      assert s.mutex.queue[0] in Waiting(s);
    }
  }

  lemma StepMutex(s: State, h: Option<nat>, p: nat)
    requires InvAt(s, h) && p < s.n && Enabled(s, p)
    ensures MutexFits(Step(s, p), NextHolder(s, h, p))
  {
    NearAll(s, h, p, p);
    if Testing(s.pc[p]) {
      TestMutex(s, h, p);
    } else if s.pc[p].Leave? {
      LeaveMutex(s, h, p);
    } else if s.pc[p].Grant? {
      GrantMutex(s, h, p);
    } else if UsingSemaphore(s.pc[p]) {
      DownMutex(s, h, p);
    } else {
      PlainMutex(s, h, p);
    }
  }

  lemma QueueOnDown(s: State, h: Option<nat>, p: nat)
    requires InvAt(s, h) && p < s.n && s.pc[p].Down?
    ensures Lists(SemaphoreStep(s, p).mutex, Waiting(SemaphoreStep(s, p)))
  {
    DownLists(s.mutex, Waiting(s), p);
    assert Waiting(SemaphoreStep(s, p)) == if Grants(s.mutex) then Waiting(s) else Waiting(s) + {p};
  }

  lemma QueueOnLeave(s: State, h: Option<nat>, p: nat)
    requires InvAt(s, h) && p < s.n && s.pc[p].Leave? && s.mutex.value == 0
    ensures Lists(SemaphoreStep(s, p).mutex, Waiting(SemaphoreStep(s, p)))
  {
    UpLists(s.mutex, Waiting(s));
    assert Waiting(SemaphoreStep(s, p))
        == if Woken(s.mutex).Some? then Waiting(s) - {Woken(s.mutex).value} else Waiting(s);
  }

  lemma QueueOtherwise(s: State, h: Option<nat>, p: nat)
    requires InvAt(s, h) && p < s.n && Enabled(s, p) && !s.pc[p].Down? && !s.pc[p].Leave?
    ensures Lists(Step(s, p).mutex, Waiting(Step(s, p)))
  {
    assert SeatFits(s, h, p);
    if s.pc[p].Grant? {
      assert SeatFits(s, h, Target(s.n, p, s.pc[p].ph));
    }
    assert Waiting(Step(s, p)) == Waiting(s);
  }

  lemma StepQueue(s: State, h: Option<nat>, p: nat)
    requires InvAt(s, h) && p < s.n && Enabled(s, p)
    ensures Lists(Step(s, p).mutex, Waiting(Step(s, p)))
  {
    assert SeatFits(s, h, p);
    if s.pc[p].Down? {
      QueueOnDown(s, h, p);
    } else if s.pc[p].Leave? {
      QueueOnLeave(s, h, p);
    } else {
      QueueOtherwise(s, h, p);
    }
  }

  /** Every step of every philosopher keeps the invariant. */
  lemma StepKeepsInv(s: State, h: Option<nat>, p: nat)
    requires InvAt(s, h) && p < s.n && Enabled(s, p)
    ensures InvAt(Step(s, p), NextHolder(s, h, p))
  {
    StepMutex(s, h, p);
    StepQueue(s, h, p);
    var s', h' := Step(s, p), NextHolder(s, h, p);
    StepSeat(s, h, p, p);
    forall i | 0 <= i < s.n ensures SeatFits(s', h', i) && SeatServed(s', h', i) {
      StepSeat(s, h, p, i);
    }
  }

  // ---------- runs ----------

  ghost predicate StepTo(s: State, s': State) {
    Shape(s) && exists p: nat :: p < s.n && Enabled(s, p) && s' == Step(s, p)
  }

  /** Any finite run, under any scheduler. */
  ghost predicate Run(r: seq<State>) {
    |r| > 0 && Initial(r[0]) && forall k :: 0 <= k < |r| - 1 ==> StepTo(r[k], r[k + 1])
  }

  /** Nobody can move. */
  ghost predicate Over(s: State) {
    forall p :: 0 <= p < |s.pc| ==> !Enabled(s, p)
  }

  /** The loop counter and the meals eaten agree with the program counter. */
  predicate MealFits(s: State, i: nat)
    requires Shape(s) && i < s.n
  {
    if s.pc[i].Loop? then s.meals[i] == s.iter[i] <= s.times
    else if s.pc[i].Quit? then s.meals[i] == s.times && s.iter[i] == s.times + 1
    else s.iter[i] <= s.times && s.iter[i] == s.meals[i] + (if BeforeMeal(s.pc[i]) then 1 else 0)
  }

  predicate BeforeMeal(pc: Pc) {
    match pc
    case Think | Eat | SetHungry | DownFork | WaitFork => true
    case Down(put) => !put
    case Queued(put) => !put
    case Leave(put) => !put
    case TestSelf(ph) => ph == Take
    case TestLeft(ph) => ph == Take
    case TestRight(ph) => ph == Take
    case SetEating(ph) => ph == Take
    case Grant(ph) => ph == Take
    case _ => false
  }

  /** All that p's step can do to another philosopher is wake it. */
  lemma OthersOnlyWake(s: State, p: nat, i: nat)
    requires Shape(s) && p < s.n && i < s.n && i != p
    ensures
      var s' := Step(s, p);
      && Shape(s') && s'.n == s.n && s'.times == s.times
      && s'.iter[i] == s.iter[i] && s'.meals[i] == s.meals[i]
      && (s'.pc[i] == s.pc[i] || s'.pc[i] == Resume(s.pc[i]))
  {
  }

  /** More steps than one turn of the loop can take. */
  const LAP := 28

  function Stage(ph: Phase): nat {
    match ph
    case Take => 19
    case PutLeft => 7
    case PutRight => 2
  }

  /** How many steps are at most left in this turn of the loop. */
  function Rank(pc: Pc): (k: nat)
    ensures k < LAP
  {
    match pc
    case Think => 27
    case Down(put) => if put then 14 else 26
    case Queued(put) => if put then 13 else 25
    case SetHungry => 24
    case TestSelf(ph) => Stage(ph) + 4
    case TestLeft(ph) => Stage(ph) + 3
    case TestRight(ph) => Stage(ph) + 2
    case SetEating(ph) => Stage(ph) + 1
    case Grant(ph) => Stage(ph)
    case Leave(put) => if put then 1 else 18
    case DownFork => 17
    case WaitFork => 16
    case Eat => 15
    case SetThinking => 12
    case Loop | Quit => 0
  }

  /** How many steps philosopher i can still make. */
  function Budget(s: State, i: nat): nat
    requires Shape(s) && i < s.n
  {
    (if s.iter[i] <= s.times then (s.times + 1 - s.iter[i]) * LAP else 0) + Rank(s.pc[i])
  }

  function Budgets(s: State): seq<nat>
    requires Shape(s)
  {
    seq(s.n, i requires 0 <= i < s.n => Budget(s, i))
  }

  /** p's own budget shrinks, and its meals still agree. */
  predicate Forward(s: State, s': State, p: nat)
    requires Shape(s) && p < s.n
  {
    Shape(s') && s'.n == s.n && MealFits(s', p) && Budget(s', p) < Budget(s, p)
  }

  lemma TestForward(s: State, p: nat)
    requires Shape(s) && p < s.n && MealFits(s, p) && Testing(s.pc[p])
    ensures Forward(s, TestStep(s, p), p)
  {
  }

  lemma SemaphoreForward(s: State, p: nat)
    requires Shape(s) && p < s.n && MealFits(s, p) && UsingSemaphore(s.pc[p])
    ensures Forward(s, SemaphoreStep(s, p), p)
  {
  }

  lemma PlainForward(s: State, p: nat)
    requires Shape(s) && p < s.n && MealFits(s, p) && Enabled(s, p) && !Testing(s.pc[p]) && !UsingSemaphore(s.pc[p])
    ensures Forward(s, PlainStep(s, p), p)
  {
    if s.pc[p].Loop? {
      assert (s.times + 1 - s.iter[p]) * LAP == (s.times - s.iter[p]) * LAP + LAP;
    }
  }

  lemma OwnProgress(s: State, p: nat)
    requires Shape(s) && p < s.n && Enabled(s, p) && MealFits(s, p)
    ensures Forward(s, Step(s, p), p)
  {
    if Testing(s.pc[p]) {
      TestForward(s, p);
    } else if UsingSemaphore(s.pc[p]) {
      SemaphoreForward(s, p);
    } else {
      PlainForward(s, p);
    }
  }

  lemma SeatProgress(s: State, p: nat, i: nat)
    requires Shape(s) && p < s.n && i < s.n && Enabled(s, p) && MealFits(s, i)
    ensures
      var s' := Step(s, p);
      && Shape(s') && s'.n == s.n && MealFits(s', i)
      && Budget(s', i) + (if i == p then 1 else 0) <= Budget(s, i)
  {
    if i == p {
      OwnProgress(s, p);
    } else {
      OthersOnlyWake(s, p, i);
    }
  }

  ghost predicate Reached(s: State) {
    (exists h :: InvAt(s, h)) && forall i {:trigger MealFits(s, i)} :: 0 <= i < s.n ==> MealFits(s, i)
  }

  lemma ReachedStep(s: State, p: nat)
    requires Reached(s) && p < s.n && Enabled(s, p)
    ensures
      var s' := Step(s, p);
      Reached(s') && s'.n == s.n && s'.times == s.times && Total(Budgets(s')) + 1 <= Total(Budgets(s))
  {
    var h :| InvAt(s, h);
    StepKeepsInv(s, h, p);
    var s' := Step(s, p);
    forall i | 0 <= i < s.n ensures MealFits(s', i) && Budget(s', i) + (if i == p then 1 else 0) <= Budget(s, i) {
      assert MealFits(s, i);
      SeatProgress(s, p, i);
    }
    OthersOnlyWake(s, p, Left(s.n, p));
    TotalDrops(Budgets(s), Budgets(s'), p);
  }

  lemma {:induction false} RunInv(r: seq<State>)
    requires Run(r)
    ensures Reached(r[|r| - 1])
    ensures
      var s := r[|r| - 1];
      s.n == r[0].n && s.times == r[0].times && Total(Budgets(s)) + |r| - 1 <= Total(Budgets(r[0]))
  {
    if |r| == 1 {
      InitialInv(r[0]);
      assert forall i :: 0 <= i < r[0].n ==> MealFits(r[0], i);
    } else {
      var s, s' := r[|r| - 2], r[|r| - 1];
      assert Run(r[..|r| - 1]);
      RunInv(r[..|r| - 1]);
      assert StepTo(s, r[|r| - 2 + 1]);
      var p: nat :| p < s.n && Enabled(s, p) && s' == Step(s, p);
      ReachedStep(s, p);
    }
  }

  // ---------- main results ----------

  /** Safety: in no reachable state do two neighbours eat, by the state array or
      by where they are. */
  lemma NeighboursNeverBothEat(r: seq<State>, i: nat)
    requires Run(r) && i < r[0].n
    ensures
      var s := r[|r| - 1];
      && Shape(s) && s.n == r[0].n
      && !(s.mood[i] == Eating && s.mood[Right(s.n, i)] == Eating)
      && !(s.pc[i] == Eat && s.pc[Right(s.n, i)] == Eat)
  {
    RunInv(r);
    var s := r[|r| - 1];
    var h :| InvAt(s, h);
    assert SeatFits(s, h, i) && SeatServed(s, h, i) && SeatFits(s, h, Right(s.n, i));
  }

  /** A hungry philosopher seen while the mutex is free has an eating neighbour. */
  lemma HungryHasEatingNeighbour(r: seq<State>, i: nat)
    requires Run(r) && i < r[0].n
    ensures
      var s := r[|r| - 1];
      && Shape(s) && s.n == r[0].n
      && (s.mutex.value > 0 && s.mood[i] == Hungry ==>
        s.mood[Left(s.n, i)] == Eating || s.mood[Right(s.n, i)] == Eating)
  {
    RunInv(r);
    var s := r[|r| - 1];
    var h :| InvAt(s, h);
    assert SeatServed(s, h, i);
  }

  /** Mutual exclusion: the mutex's count and the threads between down and up
      add up to one. */
  lemma MutexExcludes(r: seq<State>, i: nat, j: nat)
    requires Run(r) && i < j < r[0].n
    ensures
      var s := r[|r| - 1];
      && Shape(s) && s.n == r[0].n && 0 <= s.mutex.value <= 1
      && (s.mutex.value == 0 <==> exists k :: 0 <= k < s.n && Inside(s.pc[k]))
      && !(Inside(s.pc[i]) && Inside(s.pc[j]))
  {
    RunInv(r);
    var s := r[|r| - 1];
    var h: Option<nat> :| InvAt(s, h);
    assert SeatFits(s, h, i) && SeatFits(s, h, j);
    if h.Some? {
      assert SeatFits(s, h, h.value);
    }
    forall k | 0 <= k < s.n ensures Inside(s.pc[k]) ==> h.Some? {
      assert SeatFits(s, h, k);
    }
  }

  lemma SomebodyCanMove(s: State, h: Option<nat>, i: nat)
    requires InvAt(s, h) && i < s.n && s.pc[i] != Quit
    ensures exists p :: 0 <= p < s.n && Enabled(s, p)
  {
    NearAll(s, h, i, i);
    if h.Some? {
      assert Enabled(s, h.value);
    } else if !Enabled(s, i) {
      var l, r := Left(s.n, i), Right(s.n, i);
      assert s.mutex.queue == [];
      assert i !in Waiting(s) && l !in Waiting(s) && r !in Waiting(s);
      assert s.pc[i].WaitFork? && s.mood[i] == Hungry;
      assert SeatFits(s, h, l) && SeatFits(s, h, r);
      assert Enabled(s, if s.mood[l] == Eating then l else r);
    }
  }

  /** No reachable state is deadlocked: when nobody can move, everybody has quit. */
  lemma NoDeadlock(r: seq<State>, i: nat)
    requires Run(r) && Over(r[|r| - 1]) && i < r[0].n
    ensures var s := r[|r| - 1]; Shape(s) && s.n == r[0].n && s.pc[i] == Quit
  {
    RunInv(r);
    var s := r[|r| - 1];
    var h :| InvAt(s, h);
    if s.pc[i] != Quit {
      SomebodyCanMove(s, h, i);
    }
  }

  lemma InitialBudget(s: State)
    requires Initial(s)
    ensures Total(Budgets(s)) == s.n * ((s.times + 1) * LAP)
  {
    TotalOfEqual(Budgets(s), (s.times + 1) * LAP);
  }

  /** Termination under any scheduler: a run of n philosophers with `times` meals
      each makes at most n * (times + 1) * 28 steps, and one that cannot be
      continued has fed each of them exactly `times` times. */
  lemma EveryRunFeedsAll(r: seq<State>, i: nat)
    requires Run(r) && i < r[0].n
    ensures |r| - 1 <= r[0].n * ((r[0].times + 1) * LAP)
    ensures
      var s := r[|r| - 1];
      Shape(s) && s.n == r[0].n && (Over(s) ==> s.meals[i] == r[0].times)
  {
    RunInv(r);
    InitialBudget(r[0]);
    var s := r[|r| - 1];
    if Over(s) {
      NoDeadlock(r, i);
      assert MealFits(s, i);
    }
  }
}
