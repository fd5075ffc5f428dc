/** Dining philosophers on a Hoare monitor (check_sync.c on monitor.c): every
    access to shared state is a step of its own, and any philosopher that can
    move may move next. The ring size and the number of meals are parameters. */
module MonitorPhilosophers {
  import opened Basics
  import opened PhilosopherRing
  import opened Semaphores

  /** Which routine is leaving the monitor, and whether it has slept in cond_wait. */
  datatype Exit = AfterTake(waited: bool) | AfterPut

  datatype Pc =
    | Loop | Think | Eat | Quit
    | Down(put: bool) | Queued(put: bool)              // down(&mutex); queued on it
    | SetHungry | SetThinking
    | TestSelf(ph: Phase) | TestLeft(ph: Phase) | TestRight(ph: Phase) | SetEating(ph: Phase)
    | SigCount(ph: Phase)                              // cond_signal: if (count > 0)
    | SigInc(ph: Phase)                                // ++next_count
    | SigUp(ph: Phase)                                 // up(&cv.sem)
    | SigDown(ph: Phase) | SigWait(ph: Phase)          // down(&next); queued on it
    | SigDec(ph: Phase)                                // --next_count
    | While(waited: bool)                              // while (state[i] != EATING)
    | CvInc                                            // cond_wait: ++count
    | CvTest                                           // if (next_count > 0)
    | CvUpCount                                        // up(&next_count)
    | CvUpMutex                                        // up(&mutex)
    | CvDown | CvWait                                  // down(&cv.sem); queued on it
    | CvDec                                            // --count
    | LeaveTest(e: Exit)                               // if (next_count > 0)
    | LeaveNext(e: Exit)                               // up(&next)
    | LeaveMutex(e: Exit)                              // up(&mutex)

  datatype Condvar = Condvar(sem: Sem<nat>, count: int)

  /** `iter` is the loop counter; `meals` counts the meals, and no step reads it. */
  datatype State = State(
    n: nat,
    times: nat,
    mood: seq<Mood>,
    mutex: Sem<nat>,
    next: Sem<nat>,
    nextCount: int,
    cv: seq<Condvar>,
    pc: seq<Pc>,
    iter: seq<nat>,
    meals: seq<nat>)

  predicate Shape(s: State) {
    s.n >= 2 && |s.mood| == |s.cv| == |s.pc| == |s.iter| == |s.meals| == s.n
  }

  ghost predicate Initial(s: State) {
    && Shape(s)
    && s.mutex == Sem(1, []) && s.next == Sem(0, []) && s.nextCount == 0
    && forall i :: 0 <= i < s.n ==>
      && s.mood[i] == Thinking && s.cv[i] == Condvar(Sem(0, []), 0)
      && s.pc[i] == Loop && s.iter[i] == 0 && s.meals[i] == 0
  }

  /** Where phi_test_condvar returns to. */
  function After(ph: Phase): Pc {
    match ph
    case Take => While(false)
    case PutLeft => TestSelf(PutRight)
    case PutRight => LeaveTest(AfterPut)
  }

  /** Where the leaving routine continues. */
  function Outside(e: Exit): Pc {
    match e
    case AfterTake(_) => Eat
    case AfterPut => Loop
  }

  /** Where a queued thread continues once the unit is handed to it. */
  function Resume(pc: Pc): Pc {
    match pc
    case Queued(put) => if put then SetThinking else SetHungry
    case SigWait(ph) => SigDec(ph)
    case CvWait => CvDec
    case _ => pc
  }

  /** CvUpCount would treat the integer next_count as a semaphore; it has no step. */
  predicate Enabled(s: State, p: nat)
    requires p < |s.pc|
  {
    match s.pc[p]
    case Quit | CvWait | CvUpCount => false
    case Queued(_) => false
    case SigWait(_) => false
    case _ => true
  }

  function Goto(s: State, p: nat, pc: Pc): State
    requires p < |s.pc|
  {
    s.(pc := s.pc[p := pc])
  }

  /** The woken thread continues; thread numbers are seat numbers. */
  function Wake(s: State, woken: Option<nat>): State {
    if woken.Some? && woken.value < |s.pc| then Goto(s, woken.value, Resume(s.pc[woken.value])) else s
  }

  function UpMutex(s: State, p: nat, pc: Pc): State
    requires p < |s.pc|
  {
    Wake(Goto(s.(mutex := UpSem(s.mutex)), p, pc), Woken(s.mutex))
  }

  predicate Testing(pc: Pc) {
    match pc
    case TestSelf(_) | TestLeft(_) | TestRight(_) | SetEating(_) => true
    case _ => false
  }

  predicate Signalling(pc: Pc) {
    match pc
    case SigCount(_) | SigInc(_) | SigUp(_) | SigDown(_) | SigDec(_) => true
    case _ => false
  }

  predicate Waiting(pc: Pc) {
    match pc
    case While(_) | CvInc | CvTest | CvUpMutex | CvDown | CvDec => true
    case _ => false
  }

  predicate Plain(pc: Pc) {
    match pc
    case Loop | Think | Eat | SetHungry | SetThinking => true
    case _ => false
  }

  predicate Leaving(pc: Pc) {
    match pc
    case LeaveTest(_) | LeaveNext(_) | LeaveMutex(_) => true
    case _ => false
  }

  /** phi_test_condvar up to the assignment of EATING. */
  function TestStep(s: State, p: nat): State
    requires Shape(s) && p < s.n && Testing(s.pc[p])
  {
    var ph := s.pc[p].ph;
    var t := Target(s.n, p, ph);
    match s.pc[p]
    case TestSelf(_) => Goto(s, p, if s.mood[t] == Hungry then TestLeft(ph) else After(ph))
    case TestLeft(_) => Goto(s, p, if s.mood[Left(s.n, t)] != Eating then TestRight(ph) else After(ph))
    case TestRight(_) => Goto(s, p, if s.mood[Right(s.n, t)] != Eating then SetEating(ph) else After(ph))
    case SetEating(_) => Goto(s.(mood := s.mood[t := Eating]), p, SigCount(ph))
  }

  /** cond_signal(&cv[t]). */
  function SignalStep(s: State, p: nat): State
    requires Shape(s) && p < s.n && Signalling(s.pc[p])
  {
    var ph := s.pc[p].ph;
    var t := Target(s.n, p, ph);
    match s.pc[p]
    case SigCount(_) => Goto(s, p, if s.cv[t].count > 0 then SigInc(ph) else After(ph))
    case SigInc(_) => Goto(s.(nextCount := s.nextCount + 1), p, SigUp(ph))
    case SigUp(_) =>
      var sem := s.cv[t].sem;
      Wake(Goto(s.(cv := s.cv[t := s.cv[t].(sem := UpSem(sem))]), p, SigDown(ph)), Woken(sem))
    case SigDown(_) =>
      Goto(s.(next := DownSem(s.next, p)), p, if Grants(s.next) then SigDec(ph) else SigWait(ph))
    case SigDec(_) => Goto(s.(nextCount := s.nextCount - 1), p, After(ph))
  }

  /** The while loop of phi_take_forks_condvar, with cond_wait(&cv[p]). */
  function WaitStep(s: State, p: nat): State
    requires Shape(s) && p < s.n && Waiting(s.pc[p])
  {
    var c := s.cv[p];
    match s.pc[p]
    case While(waited) => Goto(s, p, if s.mood[p] != Eating then CvInc else LeaveTest(AfterTake(waited)))
    case CvInc => Goto(s.(cv := s.cv[p := c.(count := c.count + 1)]), p, CvTest)
    case CvTest => Goto(s, p, if s.nextCount > 0 then CvUpCount else CvUpMutex)
    case CvUpMutex => UpMutex(s, p, CvDown)
    case CvDown =>
      Goto(s.(cv := s.cv[p := c.(sem := DownSem(c.sem, p))]), p, if Grants(c.sem) then CvDec else CvWait)
    case CvDec => Goto(s.(cv := s.cv[p := c.(count := c.count - 1)]), p, While(true))
  }

  /** The last lines of both monitor routines. */
  function LeaveStep(s: State, p: nat): State
    requires Shape(s) && p < s.n && Leaving(s.pc[p])
  {
    var e := s.pc[p].e;
    match s.pc[p]
    case LeaveTest(_) => Goto(s, p, if s.nextCount > 0 then LeaveNext(e) else LeaveMutex(e))
    case LeaveNext(_) => Wake(Goto(s.(next := UpSem(s.next)), p, Outside(e)), Woken(s.next))
    case LeaveMutex(_) => UpMutex(s, p, Outside(e))
  }

  /** Everything else: the loop, the sleeps, and entering the monitor. */
  function OuterStep(s: State, p: nat): State
    requires Shape(s) && p < s.n
  {
    match s.pc[p]
    case Loop =>
      Goto(s.(iter := s.iter[p := s.iter[p] + 1]), p, if s.iter[p] < s.times then Think else Quit)
    case Think => Goto(s, p, Down(false))
    case Eat => Goto(s.(meals := s.meals[p := s.meals[p] + 1]), p, Down(true))
    case Down(put) =>
      Goto(s.(mutex := DownSem(s.mutex, p)), p,
           if !Grants(s.mutex) then Queued(put) else if put then SetThinking else SetHungry)
    case SetHungry => Goto(s.(mood := s.mood[p := Hungry]), p, TestSelf(Take))
    case SetThinking => Goto(s.(mood := s.mood[p := Thinking]), p, TestSelf(PutLeft))
    case _ => s
  }

  /** One step of philosopher p. */
  function Step(s: State, p: nat): State
    requires Shape(s) && p < s.n
  {
    if Testing(s.pc[p]) then TestStep(s, p)
    else if Signalling(s.pc[p]) then SignalStep(s, p)
    else if Waiting(s.pc[p]) then WaitStep(s, p)
    else if Leaving(s.pc[p]) then LeaveStep(s, p)
    else OuterStep(s, p)
  }

  // ---------- the inductive invariant ----------

  /** Where the one permission to be active in the monitor is: in the mutex, in
      the next semaphore, in one condition variable's semaphore, or with a thread. */
  datatype Where = InMutex | InNext | InCv(i: nat) | With(i: nat)

  /** Running inside the monitor. */
  predicate Active(pc: Pc) {
    match pc
    case Loop | Think | Eat | Quit | Down(_) | Queued(_) | SigDown(_) | SigWait(_) | CvDown | CvWait => false
    case _ => true
  }

  /** Entered by the mutex and not yet given it up; a signaller stays the
      occupant while it waits for the thread it signalled. */
  predicate Occupying(pc: Pc) {
    match pc
    case SetHungry | SetThinking | TestSelf(_) | TestLeft(_) | TestRight(_) | SetEating(_) => true
    case SigCount(_) | SigInc(_) | SigUp(_) | SigDown(_) | SigWait(_) | SigDec(_) => true
    case While(waited) => !waited
    case CvInc | CvTest | CvUpCount | CvUpMutex => true
    case LeaveTest(e) => e != AfterTake(true)
    case LeaveNext(e) => e != AfterTake(true)
    case LeaveMutex(e) => e != AfterTake(true)
    case _ => false
  }

  predicate HandedOver(pc: Pc) {
    pc.SigDown? || pc.SigWait?
  }

  /** The occupant has written EATING for t and has not finished signalling it. */
  predicate GrantDue(s: State, o: Option<nat>, t: nat)
    requires o.Some? ==> o.value < s.n && o.value < |s.pc|
  {
    match o
    case None => false
    case Some(q) =>
      var pc := s.pc[q];
      (pc.SigCount? || pc.SigInc? || pc.SigUp? || HandedOver(pc)) && pc.ph != Take && Target(s.n, q, pc.ph) == t
  }

  /** The occupant is still going to test t, or is testing it. */
  predicate TestDue(s: State, o: Option<nat>, t: nat)
    requires o.Some? ==> o.value < s.n && o.value < |s.pc|
  {
    match o
    case None => false
    case Some(q) =>
      var pc := s.pc[q];
      || (Testing(pc) && Target(s.n, q, pc.ph) == t)
      || ((Testing(pc) || Signalling(pc) || pc.SigWait?) && pc.ph == PutLeft && Right(s.n, q) == t)
  }

  /** What a philosopher's entry in the state array may be, by program counter. */
  function MoodsAt(pc: Pc): set<Mood> {
    match pc
    case Loop | Think | SetHungry | Quit => {Thinking}
    case Eat | SetThinking | CvDec => {Eating}
    case Down(put) => {if put then Eating else Thinking}
    case Queued(put) => {if put then Eating else Thinking}
    case TestSelf(ph) => {if ph == Take then Hungry else Thinking}
    case TestLeft(ph) => {if ph == Take then Hungry else Thinking}
    case TestRight(ph) => {if ph == Take then Hungry else Thinking}
    case SetEating(ph) => {if ph == Take then Hungry else Thinking}
    case SigCount(ph) => {if ph == Take then Eating else Thinking}
    case SigInc(ph) => if ph == Take then {} else {Thinking}
    case SigUp(ph) => if ph == Take then {} else {Thinking}
    case SigDown(ph) => if ph == Take then {} else {Thinking}
    case SigWait(ph) => if ph == Take then {} else {Thinking}
    case SigDec(ph) => if ph == Take then {} else {Thinking}
    case While(waited) => if waited then {Eating} else {Hungry, Eating}
    case CvInc | CvTest | CvUpMutex => {Hungry}
    case CvDown | CvWait => {Hungry, Eating}
    case CvUpCount => {}
    case LeaveTest(e) => {if e == AfterPut then Thinking else Eating}
    case LeaveNext(e) => if e == AfterTake(true) then {Eating} else {}
    case LeaveMutex(e) => if e == AfterTake(true) then {} else {if e == AfterPut then Thinking else Eating}
  }

  predicate InCondWait(pc: Pc) {
    match pc
    case CvTest | CvUpMutex | CvDown | CvWait | CvDec => true
    case _ => false
  }

  predicate CvFits(p: nat, pc: Pc, w: Where, c: Condvar) {
    && c.count == (if InCondWait(pc) then 1 else 0)
    && c.sem.value == (if w == InCv(p) then 1 else 0)
    && c.sem.queue == (if pc == CvWait then [p] else [])
  }

  /** The philosopher that p tests or signals, for the program counters that have one. */
  function Other(n: nat, p: nat, pc: Pc): (t: nat)
    requires p < n
    ensures t < n
  {
    if Testing(pc) || Signalling(pc) || pc.SigWait? then Target(n, p, pc.ph) else p
  }

  /** What the occupant has read is still true, and where the permission can be
      while it waits for the thread it signalled. */
  predicate OccupantKnows(s: State, w: Where, p: nat)
    requires Shape(s) && p < s.n
  {
    var pc, t := s.pc[p], Other(s.n, p, s.pc[p]);
    && (pc.TestLeft? || pc.TestRight? || pc.SetEating? ==> s.mood[t] == Hungry)
    && (pc.TestRight? || pc.SetEating? ==> s.mood[Left(s.n, t)] != Eating)
    && (pc.SetEating? ==> s.mood[Right(s.n, t)] != Eating)
    && (pc.SigCount? || pc.SigInc? || pc.SigUp? ==> s.mood[t] == Eating)
    && ((pc.SigCount? && pc.ph != Take) || pc.SigInc? || pc.SigUp? ==> s.pc[t] == CvDown || s.pc[t] == CvWait)
    && (pc.SigDown? ==>
         || (w == InNext && s.pc[t] != CvDown && s.pc[t] != CvWait)
         || w == With(t)
         || (w == InCv(t) && s.pc[t] == CvDown))
    && (pc.SigWait? ==> w == With(t) || (w == InCv(t) && s.pc[t] == CvDown))
  }

  predicate SigCounted(pc: Pc) {
    match pc
    case SigUp(_) | SigDown(_) | SigWait(_) | SigDec(_) => true
    case _ => false
  }

  /** The monitor's own fields. */
  predicate MonitorFits(s: State, w: Where, o: Option<nat>) {
    && Shape(s)
    && (o.Some? ==> o.value < s.n && OccupantKnows(s, w, o.value))
    && (o.None? <==> w == InMutex)
    && s.mutex.value == (if w == InMutex then 1 else 0)
    && s.next.value == (if w == InNext then 1 else 0)
    && s.next.queue == (if o.Some? && s.pc[o.value].SigWait? then [o.value] else [])
    && s.nextCount == (if o.Some? && SigCounted(s.pc[o.value]) then 1 else 0)
    && (o.Some? ==> (HandedOver(s.pc[o.value]) <==> w != With(o.value)))
    && (w == InNext ==> s.pc[o.value].SigDown?)
    && (w.InCv? || w.With? ==> w.i < s.n)
  }

  /** Seat i: who is active, who occupies, what the state array and the condition
      variable hold. */
  predicate SeatFits(s: State, w: Where, o: Option<nat>, i: nat)
    requires Shape(s) && (o.Some? ==> o.value < s.n) && i < s.n
  {
    && (Active(s.pc[i]) <==> w == With(i))
    && (Occupying(s.pc[i]) <==> o == Some(i))
    && s.mood[i] in MoodsAt(s.pc[i])
    && (s.pc[i].CvDown? || s.pc[i].CvWait? ==> (s.mood[i] == Eating <==> GrantDue(s, o, i)))
    && CvFits(i, s.pc[i], w, s.cv[i])
  }

  /** Seat i does not eat beside its right neighbour, and is not forgotten: if it
      is hungry with both forks free, the occupant is about to test it. */
  predicate SeatServed(s: State, o: Option<nat>, i: nat)
    requires Shape(s) && (o.Some? ==> o.value < s.n) && i < s.n
  {
    && !(s.mood[i] == Eating && s.mood[Right(s.n, i)] == Eating)
    && (s.mood[i] == Hungry && s.mood[Left(s.n, i)] != Eating && s.mood[Right(s.n, i)] != Eating
        ==> TestDue(s, o, i))
  }

  /** The threads waiting for the mutex. */
  ghost function Waiters(s: State): set<nat> {
    set i: nat | i < |s.pc| && s.pc[i].Queued?
  }

  ghost predicate InvAt(s: State, w: Where, o: Option<nat>) {
    && MonitorFits(s, w, o)
    && Lists(s.mutex, Waiters(s))
    && (forall i {:trigger SeatFits(s, w, o, i)} :: 0 <= i < s.n ==> SeatFits(s, w, o, i))
    && (forall i {:trigger SeatServed(s, o, i)} :: 0 <= i < s.n ==> SeatServed(s, o, i))
  }

  lemma InitialInv(s: State)
    requires Initial(s)
    ensures InvAt(s, InMutex, None)
  {
    assert forall i :: 0 <= i < s.n ==> SeatFits(s, InMutex, None, i) && SeatServed(s, None, i);
  }

  /** Where the permission is after p's step. */
  function NextWhere(s: State, w: Where, p: nat): Where
    requires Shape(s) && p < s.n
  {
    match s.pc[p]
    case Down(_) => if Grants(s.mutex) then With(p) else w
    case CvUpMutex => if s.mutex.queue == [] then InMutex else With(s.mutex.queue[0])
    case LeaveMutex(_) => if s.mutex.queue == [] then InMutex else With(s.mutex.queue[0])
    case LeaveNext(_) => if s.next.queue == [] then InNext else With(s.next.queue[0])
    case SigUp(ph) => var t := Target(s.n, p, ph); if s.cv[t].sem.queue == [] then InCv(t) else With(t)
    case SigDown(_) => if Grants(s.next) then With(p) else w
    case CvDown => if Grants(s.cv[p].sem) then With(p) else w
    case _ => w
  }

  /** The occupant after p's step. */
  function NextOccupant(s: State, o: Option<nat>, p: nat): Option<nat>
    requires Shape(s) && p < s.n
  {
    match s.pc[p]
    case Down(_) => if Grants(s.mutex) then Some(p) else o
    case CvUpMutex => Woken(s.mutex)
    case LeaveMutex(_) => Woken(s.mutex)
    case _ => o
  }

  // ---------- the invariant is kept ----------

  /** What is known about the seats that a step of p can touch or look at. */
  predicate Near(s: State, w: Where, o: Option<nat>, p: nat, i: nat) {
    && MonitorFits(s, w, o)
    && p < s.n && i < s.n
    && SeatFits(s, w, o, p) && SeatFits(s, w, o, i)
  }

  predicate WokenQueued(s: State) {
    Woken(s.mutex).Some? ==> Woken(s.mutex).value < |s.pc| && s.pc[Woken(s.mutex).value].Queued?
  }

  predicate FitsAfter(s: State, w: Where, o: Option<nat>, p: nat, s': State, i: nat)
    requires Shape(s) && p < s.n
  {
    var w', o' := NextWhere(s, w, p), NextOccupant(s, o, p);
    Shape(s') && s'.n == s.n && i < s.n && (o'.Some? ==> o'.value < s.n) && SeatFits(s', w', o', i)
  }

  /** A seat that the step does not touch. */
  lemma OtherFits(s: State, w: Where, o: Option<nat>, s': State, w': Where, o': Option<nat>, i: nat)
    requires Shape(s) && (o.Some? ==> o.value < s.n) && i < s.n && SeatFits(s, w, o, i)
    requires Shape(s') && s'.n == s.n && (o'.Some? ==> o'.value < s.n)
    requires s'.pc[i] == s.pc[i] && s'.mood[i] == s.mood[i] && s'.cv[i] == s.cv[i]
    requires (w == With(i)) == (w' == With(i)) && (w == InCv(i)) == (w' == InCv(i)) && (o == Some(i)) == (o' == Some(i))
    requires GrantDue(s, o, i) == GrantDue(s', o', i) || !(s.pc[i].CvDown? || s.pc[i].CvWait?)
    ensures SeatFits(s', w', o', i)
  {
  }

  lemma PlainFitsOwn(s: State, w: Where, o: Option<nat>, p: nat)
    requires Near(s, w, o, p, p) && Plain(s.pc[p])
    ensures FitsAfter(s, w, o, p, OuterStep(s, p), p)
  {
  }

  lemma PlainFitsOther(s: State, w: Where, o: Option<nat>, p: nat, i: nat)
    requires Near(s, w, o, p, i) && Plain(s.pc[p]) && i != p
    ensures FitsAfter(s, w, o, p, OuterStep(s, p), i)
  {
    OtherFits(s, w, o, OuterStep(s, p), NextWhere(s, w, p), NextOccupant(s, o, p), i);
  }

  lemma EnterFitsOwn(s: State, w: Where, o: Option<nat>, p: nat)
    requires Near(s, w, o, p, p) && s.pc[p].Down?
    ensures FitsAfter(s, w, o, p, OuterStep(s, p), p)
  {
  }

  lemma EnterFitsOther(s: State, w: Where, o: Option<nat>, p: nat, i: nat)
    requires Near(s, w, o, p, i) && s.pc[p].Down? && i != p
    ensures FitsAfter(s, w, o, p, OuterStep(s, p), i)
  {
    OtherFits(s, w, o, OuterStep(s, p), NextWhere(s, w, p), NextOccupant(s, o, p), i);
  }

  lemma TestFitsOwn(s: State, w: Where, o: Option<nat>, p: nat)
    requires Near(s, w, o, p, p) && Testing(s.pc[p])
    ensures FitsAfter(s, w, o, p, TestStep(s, p), p)
  {
  }

  lemma TestFitsOther(s: State, w: Where, o: Option<nat>, p: nat, i: nat)
    requires Near(s, w, o, p, i) && Testing(s.pc[p]) && i != p
    ensures FitsAfter(s, w, o, p, TestStep(s, p), i)
  {
    if !s.pc[p].SetEating? || i != Target(s.n, p, s.pc[p].ph) {
      OtherFits(s, w, o, TestStep(s, p), NextWhere(s, w, p), NextOccupant(s, o, p), i);
    }
  }

  lemma BeginFitsOwn(s: State, w: Where, o: Option<nat>, p: nat)
    requires Near(s, w, o, p, p) && s.pc[p].SigCount?
    requires SeatFits(s, w, o, Target(s.n, p, s.pc[p].ph))
    ensures FitsAfter(s, w, o, p, SignalStep(s, p), p)
  {
  }

  lemma CountFitsOwn(s: State, w: Where, o: Option<nat>, p: nat)
    requires Near(s, w, o, p, p) && (s.pc[p].SigInc? || s.pc[p].SigDec?)
    requires SeatFits(s, w, o, Target(s.n, p, s.pc[p].ph))
    ensures FitsAfter(s, w, o, p, SignalStep(s, p), p)
  {
  }

  lemma CountFitsOther(s: State, w: Where, o: Option<nat>, p: nat, i: nat)
    requires Near(s, w, o, p, i) && (s.pc[p].SigCount? || s.pc[p].SigInc? || s.pc[p].SigDec?) && i != p
    requires SeatFits(s, w, o, Target(s.n, p, s.pc[p].ph))
    ensures FitsAfter(s, w, o, p, SignalStep(s, p), i)
  {
    OtherFits(s, w, o, SignalStep(s, p), NextWhere(s, w, p), NextOccupant(s, o, p), i);
  }

  lemma GiveFitsOwn(s: State, w: Where, o: Option<nat>, p: nat)
    requires Near(s, w, o, p, p) && s.pc[p].SigUp?
    requires SeatFits(s, w, o, Target(s.n, p, s.pc[p].ph))
    ensures FitsAfter(s, w, o, p, SignalStep(s, p), p)
  {
  }

  lemma ParkFitsOwn(s: State, w: Where, o: Option<nat>, p: nat)
    requires Near(s, w, o, p, p) && s.pc[p].SigDown?
    requires SeatFits(s, w, o, Target(s.n, p, s.pc[p].ph))
    ensures FitsAfter(s, w, o, p, SignalStep(s, p), p)
  {
  }

  lemma GiveFitsOther(s: State, w: Where, o: Option<nat>, p: nat, i: nat)
    requires Near(s, w, o, p, i) && s.pc[p].SigUp? && i != p
    requires SeatFits(s, w, o, Target(s.n, p, s.pc[p].ph))
    ensures FitsAfter(s, w, o, p, SignalStep(s, p), i)
  {
    if i != Target(s.n, p, s.pc[p].ph) {
      OtherFits(s, w, o, SignalStep(s, p), NextWhere(s, w, p), NextOccupant(s, o, p), i);
    }
  }

  lemma ParkFitsOther(s: State, w: Where, o: Option<nat>, p: nat, i: nat)
    requires Near(s, w, o, p, i) && s.pc[p].SigDown? && i != p
    requires SeatFits(s, w, o, Target(s.n, p, s.pc[p].ph))
    ensures FitsAfter(s, w, o, p, SignalStep(s, p), i)
  {
    OtherFits(s, w, o, SignalStep(s, p), NextWhere(s, w, p), NextOccupant(s, o, p), i);
  }

  lemma CheckFitsOwn(s: State, w: Where, o: Option<nat>, p: nat)
    requires Near(s, w, o, p, p) && (s.pc[p].While? || s.pc[p].CvInc? || s.pc[p].CvTest?)
    ensures FitsAfter(s, w, o, p, WaitStep(s, p), p)
  {
  }

  lemma CheckFitsOther(s: State, w: Where, o: Option<nat>, p: nat, i: nat)
    requires Near(s, w, o, p, i) && (s.pc[p].While? || s.pc[p].CvInc? || s.pc[p].CvTest?) && i != p
    ensures FitsAfter(s, w, o, p, WaitStep(s, p), i)
  {
    OtherFits(s, w, o, WaitStep(s, p), NextWhere(s, w, p), NextOccupant(s, o, p), i);
  }

  lemma SleepFitsOwn(s: State, w: Where, o: Option<nat>, p: nat)
    requires Near(s, w, o, p, p) && s.pc[p].CvDown?
    ensures FitsAfter(s, w, o, p, WaitStep(s, p), p)
  {
    if Grants(s.cv[p].sem) {
      assert w == InCv(p) && o.Some? && HandedOver(s.pc[o.value]) && GrantDue(s, o, p);
      assert s.mood[p] == Eating;
    } else {
      assert WaitStep(s, p).cv[p].sem == DownSem(s.cv[p].sem, p);
    }
  }

  lemma WakeFitsOwn(s: State, w: Where, o: Option<nat>, p: nat)
    requires Near(s, w, o, p, p) && s.pc[p].CvDec?
    ensures FitsAfter(s, w, o, p, WaitStep(s, p), p)
  {
  }

  lemma SleepFitsOther(s: State, w: Where, o: Option<nat>, p: nat, i: nat)
    requires Near(s, w, o, p, i) && (s.pc[p].CvDown? || s.pc[p].CvDec?) && i != p
    ensures FitsAfter(s, w, o, p, WaitStep(s, p), i)
  {
    OtherFits(s, w, o, WaitStep(s, p), NextWhere(s, w, p), NextOccupant(s, o, p), i);
  }

  lemma YieldFitsOwn(s: State, w: Where, o: Option<nat>, p: nat)
    requires WokenQueued(s)
    requires Near(s, w, o, p, p) && s.pc[p].CvUpMutex?
    ensures FitsAfter(s, w, o, p, WaitStep(s, p), p)
  {
  }

  lemma YieldFitsOther(s: State, w: Where, o: Option<nat>, p: nat, i: nat)
    requires WokenQueued(s)
    requires Near(s, w, o, p, i) && s.pc[p].CvUpMutex? && i != p
    ensures FitsAfter(s, w, o, p, WaitStep(s, p), i)
  {
    if Woken(s.mutex) != Some(i) {
      OtherFits(s, w, o, WaitStep(s, p), NextWhere(s, w, p), NextOccupant(s, o, p), i);
    }
  }

  lemma PassOnFitsOwn(s: State, w: Where, o: Option<nat>, p: nat)
    requires Near(s, w, o, p, p) && (s.pc[p].LeaveTest? || s.pc[p].LeaveNext?)
    ensures FitsAfter(s, w, o, p, LeaveStep(s, p), p)
  {
  }

  lemma AskFitsOther(s: State, w: Where, o: Option<nat>, p: nat, i: nat)
    requires Near(s, w, o, p, i) && s.pc[p].LeaveTest? && i != p
    ensures FitsAfter(s, w, o, p, LeaveStep(s, p), i)
  {
    OtherFits(s, w, o, LeaveStep(s, p), NextWhere(s, w, p), NextOccupant(s, o, p), i);
  }

  lemma PassOnFitsOther(s: State, w: Where, o: Option<nat>, p: nat, i: nat)
    requires Near(s, w, o, p, i) && s.pc[p].LeaveNext? && i != p
    ensures FitsAfter(s, w, o, p, LeaveStep(s, p), i)
  {
    if Woken(s.next) != Some(i) {
      OtherFits(s, w, o, LeaveStep(s, p), NextWhere(s, w, p), NextOccupant(s, o, p), i);
    }
  }

  lemma ReleaseFitsOwn(s: State, w: Where, o: Option<nat>, p: nat)
    requires WokenQueued(s)
    requires Near(s, w, o, p, p) && s.pc[p].LeaveMutex?
    ensures FitsAfter(s, w, o, p, LeaveStep(s, p), p)
  {
  }

  lemma ReleaseFitsOther(s: State, w: Where, o: Option<nat>, p: nat, i: nat)
    requires WokenQueued(s)
    requires Near(s, w, o, p, i) && s.pc[p].LeaveMutex? && i != p
    ensures FitsAfter(s, w, o, p, LeaveStep(s, p), i)
  {
    if Woken(s.mutex) != Some(i) {
      OtherFits(s, w, o, LeaveStep(s, p), NextWhere(s, w, p), NextOccupant(s, o, p), i);
    }
  }

  lemma FitsOwn(s: State, w: Where, o: Option<nat>, p: nat)
    requires WokenQueued(s)
    requires Near(s, w, o, p, p) && Enabled(s, p)
    requires Signalling(s.pc[p]) ==> SeatFits(s, w, o, Target(s.n, p, s.pc[p].ph))
    ensures FitsAfter(s, w, o, p, Step(s, p), p)
  {
    if Testing(s.pc[p]) {
      TestFitsOwn(s, w, o, p);
    } else if s.pc[p].SigUp? {
      GiveFitsOwn(s, w, o, p);
    } else if s.pc[p].SigDown? {
      ParkFitsOwn(s, w, o, p);
    } else if s.pc[p].SigCount? {
      BeginFitsOwn(s, w, o, p);
    } else if Signalling(s.pc[p]) {
      CountFitsOwn(s, w, o, p);
    } else if s.pc[p].CvDown? {
      SleepFitsOwn(s, w, o, p);
    } else if s.pc[p].CvDec? {
      WakeFitsOwn(s, w, o, p);
    } else if s.pc[p].CvUpMutex? {
      YieldFitsOwn(s, w, o, p);
    } else if Waiting(s.pc[p]) {
      CheckFitsOwn(s, w, o, p);
    } else if s.pc[p].LeaveMutex? {
      ReleaseFitsOwn(s, w, o, p);
    } else if Leaving(s.pc[p]) {
      PassOnFitsOwn(s, w, o, p);
    } else if s.pc[p].Down? {
      EnterFitsOwn(s, w, o, p);
    } else {
      PlainFitsOwn(s, w, o, p);
    }
  }

  lemma FitsOther(s: State, w: Where, o: Option<nat>, p: nat, i: nat)
    requires WokenQueued(s)
    requires Near(s, w, o, p, i) && Enabled(s, p) && i != p
    requires Signalling(s.pc[p]) ==> SeatFits(s, w, o, Target(s.n, p, s.pc[p].ph))
    ensures FitsAfter(s, w, o, p, Step(s, p), i)
  {
    if Testing(s.pc[p]) {
      TestFitsOther(s, w, o, p, i);
    } else if s.pc[p].SigUp? {
      GiveFitsOther(s, w, o, p, i);
    } else if s.pc[p].SigDown? {
      ParkFitsOther(s, w, o, p, i);
    } else if Signalling(s.pc[p]) {
      CountFitsOther(s, w, o, p, i);
    } else if s.pc[p].CvDown? || s.pc[p].CvDec? {
      SleepFitsOther(s, w, o, p, i);
    } else if s.pc[p].CvUpMutex? {
      YieldFitsOther(s, w, o, p, i);
    } else if Waiting(s.pc[p]) {
      CheckFitsOther(s, w, o, p, i);
    } else if s.pc[p].LeaveMutex? {
      ReleaseFitsOther(s, w, o, p, i);
    } else if s.pc[p].LeaveTest? {
      AskFitsOther(s, w, o, p, i);
    } else if Leaving(s.pc[p]) {
      PassOnFitsOther(s, w, o, p, i);
    } else if s.pc[p].Down? {
      EnterFitsOther(s, w, o, p, i);
    } else {
      PlainFitsOther(s, w, o, p, i);
    }
  }

  predicate ServedNear(s: State, w: Where, o: Option<nat>, p: nat, i: nat) {
    && Near(s, w, o, p, i)
    && SeatServed(s, o, i) && SeatServed(s, o, Left(s.n, i)) && SeatServed(s, o, Right(s.n, i))
  }

  predicate ServedAfter(s: State, o: Option<nat>, p: nat, s': State, i: nat)
    requires Shape(s) && p < s.n
  {
    var o' := NextOccupant(s, o, p);
    Shape(s') && s'.n == s.n && i < s.n && (o'.Some? ==> o'.value < s.n) && SeatServed(s', o', i)
  }

  lemma PlainServed(s: State, w: Where, o: Option<nat>, p: nat, i: nat)
    requires ServedNear(s, w, o, p, i) && Plain(s.pc[p])
    ensures ServedAfter(s, o, p, OuterStep(s, p), i)
  {
  }

  lemma EnterServed(s: State, w: Where, o: Option<nat>, p: nat, i: nat)
    requires ServedNear(s, w, o, p, i) && s.pc[p].Down?
    ensures ServedAfter(s, o, p, OuterStep(s, p), i)
  {
  }

  lemma LookServed(s: State, w: Where, o: Option<nat>, p: nat, i: nat)
    requires ServedNear(s, w, o, p, i) && Testing(s.pc[p]) && !s.pc[p].SetEating?
    ensures ServedAfter(s, o, p, TestStep(s, p), i)
  {
  }

  lemma EatingServed(s: State, w: Where, o: Option<nat>, p: nat, i: nat)
    requires ServedNear(s, w, o, p, i) && s.pc[p].SetEating?
    ensures ServedAfter(s, o, p, TestStep(s, p), i)
  {
  }

  lemma GiveServed(s: State, w: Where, o: Option<nat>, p: nat, i: nat)
    requires ServedNear(s, w, o, p, i) && s.pc[p].SigUp?
    ensures ServedAfter(s, o, p, SignalStep(s, p), i)
  {
  }

  lemma CountServed(s: State, w: Where, o: Option<nat>, p: nat, i: nat)
    requires ServedNear(s, w, o, p, i) && Signalling(s.pc[p]) && !s.pc[p].SigUp?
    ensures ServedAfter(s, o, p, SignalStep(s, p), i)
  {
  }

  lemma CheckServed(s: State, w: Where, o: Option<nat>, p: nat, i: nat)
    requires ServedNear(s, w, o, p, i) && (s.pc[p].While? || s.pc[p].CvInc? || s.pc[p].CvTest?)
    ensures ServedAfter(s, o, p, WaitStep(s, p), i)
  {
  }

  lemma SleepServed(s: State, w: Where, o: Option<nat>, p: nat, i: nat)
    requires ServedNear(s, w, o, p, i) && (s.pc[p].CvDown? || s.pc[p].CvDec?)
    ensures ServedAfter(s, o, p, WaitStep(s, p), i)
  {
  }

  lemma YieldServed(s: State, w: Where, o: Option<nat>, p: nat, i: nat)
    requires ServedNear(s, w, o, p, i) && s.pc[p].CvUpMutex?
    requires WokenQueued(s)
    ensures ServedAfter(s, o, p, WaitStep(s, p), i)
  {
  }

  lemma PassOnServed(s: State, w: Where, o: Option<nat>, p: nat, i: nat)
    requires ServedNear(s, w, o, p, i) && (s.pc[p].LeaveTest? || s.pc[p].LeaveNext?)
    ensures ServedAfter(s, o, p, LeaveStep(s, p), i)
  {
  }

  lemma ReleaseServed(s: State, w: Where, o: Option<nat>, p: nat, i: nat)
    requires ServedNear(s, w, o, p, i) && s.pc[p].LeaveMutex?
    requires WokenQueued(s)
    ensures ServedAfter(s, o, p, LeaveStep(s, p), i)
  {
  }

  /** The seats the occupant reads. */
  predicate NearOccupant(s: State, w: Where, o: Option<nat>, p: nat) {
    && MonitorFits(s, w, o) && p < s.n && SeatFits(s, w, o, p)
    && (o.Some? ==>
      SeatFits(s, w, o, o.value) && SeatFits(s, w, o, Left(s.n, o.value)) && SeatFits(s, w, o, Right(s.n, o.value)))
  }

  /** What the occupant has read stays true in a step of another thread that writes no entry
      of the state array and neither starts nor ends a wait on a condition variable. */
  lemma KnowsStill(s: State, s': State, w: Where, q: nat, p: nat)
    requires Shape(s) && Shape(s') && s'.n == s.n && q < s.n && p < s.n && p != q
    requires s'.mood == s.mood && s'.pc == s.pc[p := s'.pc[p]]
    requires !s.pc[p].CvDown? && !s.pc[p].CvWait? && !s'.pc[p].CvDown? && !s'.pc[p].CvWait?
    requires OccupantKnows(s, w, q)
    ensures OccupantKnows(s', w, q)
  {
  }

  lemma PlainMonitor(s: State, w: Where, o: Option<nat>, p: nat)
    requires NearOccupant(s, w, o, p) && Plain(s.pc[p])
    ensures MonitorFits(OuterStep(s, p), NextWhere(s, w, p), NextOccupant(s, o, p))
  {
    if o.Some? && o.value != p {
      KnowsStill(s, OuterStep(s, p), w, o.value, p);
    }
  }

  lemma EnterMonitor(s: State, w: Where, o: Option<nat>, p: nat)
    requires NearOccupant(s, w, o, p) && s.pc[p].Down?
    ensures MonitorFits(OuterStep(s, p), NextWhere(s, w, p), NextOccupant(s, o, p))
  {
    if o.Some? && o.value != p {
      KnowsStill(s, OuterStep(s, p), w, o.value, p);
    }
  }

  lemma SelfMonitor(s: State, w: Where, o: Option<nat>, p: nat)
    requires NearOccupant(s, w, o, p) && s.pc[p].TestSelf?
    ensures MonitorFits(TestStep(s, p), NextWhere(s, w, p), NextOccupant(s, o, p))
  {
  }

  lemma LeftMonitor(s: State, w: Where, o: Option<nat>, p: nat)
    requires NearOccupant(s, w, o, p) && s.pc[p].TestLeft?
    ensures MonitorFits(TestStep(s, p), NextWhere(s, w, p), NextOccupant(s, o, p))
  {
  }

  lemma RightMonitor(s: State, w: Where, o: Option<nat>, p: nat)
    requires NearOccupant(s, w, o, p) && s.pc[p].TestRight?
    ensures MonitorFits(TestStep(s, p), NextWhere(s, w, p), NextOccupant(s, o, p))
  {
  }

  lemma EatingMonitor(s: State, w: Where, o: Option<nat>, p: nat)
    requires NearOccupant(s, w, o, p) && s.pc[p].SetEating?
    ensures MonitorFits(TestStep(s, p), NextWhere(s, w, p), NextOccupant(s, o, p))
  {
  }

  lemma CountMonitor(s: State, w: Where, o: Option<nat>, p: nat)
    requires NearOccupant(s, w, o, p) && (s.pc[p].SigInc? || s.pc[p].SigDec?)
    ensures MonitorFits(SignalStep(s, p), NextWhere(s, w, p), NextOccupant(s, o, p))
  {
  }

  lemma BeginMonitor(s: State, w: Where, o: Option<nat>, p: nat)
    requires NearOccupant(s, w, o, p) && s.pc[p].SigCount?
    ensures MonitorFits(SignalStep(s, p), NextWhere(s, w, p), NextOccupant(s, o, p))
  {
  }

  lemma GiveWaiting(s: State, w: Where, o: Option<nat>, p: nat)
    requires NearOccupant(s, w, o, p) && s.pc[p].SigUp? && s.pc[Target(s.n, p, s.pc[p].ph)].CvWait?
    ensures MonitorFits(SignalStep(s, p), NextWhere(s, w, p), NextOccupant(s, o, p))
  {
    var t := Target(s.n, p, s.pc[p].ph);
    assert o == Some(p) && t != p && (t == Left(s.n, p) || t == Right(s.n, p));
    assert s.cv[t].sem.queue == [t];
    assert NextWhere(s, w, p) == With(t) && NextOccupant(s, o, p) == o;
    assert SignalStep(s, p).pc == s.pc[p := SigDown(s.pc[p].ph)][t := CvDec];
  }

  lemma GiveComing(s: State, w: Where, o: Option<nat>, p: nat)
    requires NearOccupant(s, w, o, p) && s.pc[p].SigUp? && !s.pc[Target(s.n, p, s.pc[p].ph)].CvWait?
    ensures MonitorFits(SignalStep(s, p), NextWhere(s, w, p), NextOccupant(s, o, p))
  {
    var t := Target(s.n, p, s.pc[p].ph);
    assert o == Some(p) && t != p && (t == Left(s.n, p) || t == Right(s.n, p));
    assert s.cv[t].sem.queue == [];
    assert NextWhere(s, w, p) == InCv(t) && NextOccupant(s, o, p) == o;
    assert SignalStep(s, p).pc == s.pc[p := SigDown(s.pc[p].ph)];
  }

  lemma ParkMonitor(s: State, w: Where, o: Option<nat>, p: nat)
    requires NearOccupant(s, w, o, p) && s.pc[p].SigDown?
    ensures MonitorFits(SignalStep(s, p), NextWhere(s, w, p), NextOccupant(s, o, p))
  {
  }

  lemma CheckMonitor(s: State, w: Where, o: Option<nat>, p: nat)
    requires NearOccupant(s, w, o, p) && (s.pc[p].While? || s.pc[p].CvInc? || s.pc[p].CvTest?)
    ensures MonitorFits(WaitStep(s, p), NextWhere(s, w, p), NextOccupant(s, o, p))
  {
  }

  lemma SleepMonitor(s: State, w: Where, o: Option<nat>, p: nat)
    requires NearOccupant(s, w, o, p) && (s.pc[p].CvDown? || s.pc[p].CvDec?)
    ensures MonitorFits(WaitStep(s, p), NextWhere(s, w, p), NextOccupant(s, o, p))
  {
  }

  lemma YieldMonitor(s: State, w: Where, o: Option<nat>, p: nat)
    requires WokenQueued(s)
    requires NearOccupant(s, w, o, p) && s.pc[p].CvUpMutex?
    ensures MonitorFits(WaitStep(s, p), NextWhere(s, w, p), NextOccupant(s, o, p))
  {
  }

  lemma AskMonitor(s: State, w: Where, o: Option<nat>, p: nat)
    requires NearOccupant(s, w, o, p) && s.pc[p].LeaveTest?
    ensures MonitorFits(LeaveStep(s, p), NextWhere(s, w, p), NextOccupant(s, o, p))
  {
  }

  lemma PassOnMonitor(s: State, w: Where, o: Option<nat>, p: nat)
    requires NearOccupant(s, w, o, p) && s.pc[p].LeaveNext?
    ensures MonitorFits(LeaveStep(s, p), NextWhere(s, w, p), NextOccupant(s, o, p))
  {
    assert o.Some? && o.value != p && HandedOver(s.pc[o.value]);
  }

  lemma ReleaseMonitor(s: State, w: Where, o: Option<nat>, p: nat)
    requires WokenQueued(s)
    requires NearOccupant(s, w, o, p) && s.pc[p].LeaveMutex?
    ensures MonitorFits(LeaveStep(s, p), NextWhere(s, w, p), NextOccupant(s, o, p))
  {
  }

  lemma StepMonitor(s: State, w: Where, o: Option<nat>, p: nat)
    requires WokenQueued(s)
    requires NearOccupant(s, w, o, p) && Enabled(s, p)
    ensures MonitorFits(Step(s, p), NextWhere(s, w, p), NextOccupant(s, o, p))
  {
    match s.pc[p]
    case TestSelf(_) => SelfMonitor(s, w, o, p);
    case TestLeft(_) => LeftMonitor(s, w, o, p);
    case TestRight(_) => RightMonitor(s, w, o, p);
    case SetEating(_) => EatingMonitor(s, w, o, p);
    case SigCount(_) => BeginMonitor(s, w, o, p);
    case SigInc(_) | SigDec(_) => CountMonitor(s, w, o, p);
    case SigUp(ph) =>
      if s.pc[Target(s.n, p, ph)].CvWait? {
        GiveWaiting(s, w, o, p);
      } else {
        GiveComing(s, w, o, p);
      }
    case SigDown(_) => ParkMonitor(s, w, o, p);
    case While(_) | CvInc | CvTest => CheckMonitor(s, w, o, p);
    case CvUpMutex => YieldMonitor(s, w, o, p);
    case CvDown | CvDec => SleepMonitor(s, w, o, p);
    case LeaveTest(_) => AskMonitor(s, w, o, p);
    case LeaveNext(_) => PassOnMonitor(s, w, o, p);
    case LeaveMutex(_) => ReleaseMonitor(s, w, o, p);
    case Down(_) => EnterMonitor(s, w, o, p);
    case Loop | Think | Eat | SetHungry | SetThinking => PlainMonitor(s, w, o, p);
  }

  lemma NearAll(s: State, w: Where, o: Option<nat>, p: nat, i: nat)
    requires InvAt(s, w, o) && p < s.n && i < s.n
    ensures ServedNear(s, w, o, p, i) && NearOccupant(s, w, o, p) && WokenQueued(s)
  {
    assert SeatFits(s, w, o, p) && SeatFits(s, w, o, i) && SeatServed(s, o, i);
    assert SeatServed(s, o, Left(s.n, i)) && SeatServed(s, o, Right(s.n, i));
    if o.Some? {
      assert SeatFits(s, w, o, o.value);
      assert SeatFits(s, w, o, Left(s.n, o.value)) && SeatFits(s, w, o, Right(s.n, o.value));
    }
    if s.mutex.queue != [] {
      assert s.mutex.queue[0] in Waiters(s);
    }
  }

  lemma StepServed(s: State, w: Where, o: Option<nat>, p: nat, i: nat)
    requires WokenQueued(s)
    requires ServedNear(s, w, o, p, i) && Enabled(s, p)
    ensures ServedAfter(s, o, p, Step(s, p), i)
  {
    if s.pc[p].SetEating? {
      EatingServed(s, w, o, p, i);
    } else if Testing(s.pc[p]) {
      LookServed(s, w, o, p, i);
    } else if s.pc[p].SigUp? {
      GiveServed(s, w, o, p, i);
    } else if Signalling(s.pc[p]) {
      CountServed(s, w, o, p, i);
    } else if s.pc[p].CvDown? || s.pc[p].CvDec? {
      SleepServed(s, w, o, p, i);
    } else if s.pc[p].CvUpMutex? {
      YieldServed(s, w, o, p, i);
    } else if Waiting(s.pc[p]) {
      CheckServed(s, w, o, p, i);
    } else if s.pc[p].LeaveMutex? {
      ReleaseServed(s, w, o, p, i);
    } else if Leaving(s.pc[p]) {
      PassOnServed(s, w, o, p, i);
    } else if s.pc[p].Down? {
      EnterServed(s, w, o, p, i);
    } else {
      PlainServed(s, w, o, p, i);
    }
  }

  lemma StepSeat(s: State, w: Where, o: Option<nat>, p: nat, i: nat)
    requires InvAt(s, w, o) && p < s.n && i < s.n && Enabled(s, p)
    ensures FitsAfter(s, w, o, p, Step(s, p), i) && ServedAfter(s, o, p, Step(s, p), i)
  {
    NearAll(s, w, o, p, i);
    if Signalling(s.pc[p]) {
      assert SeatFits(s, w, o, Target(s.n, p, s.pc[p].ph));
    }
    if i == p {
      FitsOwn(s, w, o, p);
    } else {
      FitsOther(s, w, o, p, i);
    }
    StepServed(s, w, o, p, i);
  }

  lemma QueueOnDown(s: State, w: Where, o: Option<nat>, p: nat)
    requires InvAt(s, w, o) && p < s.n && s.pc[p].Down?
    ensures Lists(OuterStep(s, p).mutex, Waiters(OuterStep(s, p)))
  {
    DownLists(s.mutex, Waiters(s), p);
    assert Waiters(OuterStep(s, p)) == if Grants(s.mutex) then Waiters(s) else Waiters(s) + {p};
  }

  lemma QueueOnUp(s: State, w: Where, o: Option<nat>, p: nat, pc: Pc)
    requires InvAt(s, w, o) && p < s.n && !s.pc[p].Queued? && !pc.Queued? && s.mutex.value == 0
    ensures Lists(UpMutex(s, p, pc).mutex, Waiters(UpMutex(s, p, pc)))
  {
    UpLists(s.mutex, Waiters(s));
    assert Waiters(UpMutex(s, p, pc)) ==
      if Woken(s.mutex).Some? then Waiters(s) - {Woken(s.mutex).value} else Waiters(s);
  }

  /** A step that leaves the mutex alone wakes nobody waiting for it. */
  predicate QueueSame(s: State, s': State, i: nat) {
    s'.mutex == s.mutex && |s'.pc| == |s.pc| && (i < |s.pc| ==> s'.pc[i].Queued? == s.pc[i].Queued?)
  }

  lemma SignalQueue(s: State, w: Where, o: Option<nat>, p: nat, i: nat)
    requires Near(s, w, o, p, i) && Signalling(s.pc[p]) && SeatFits(s, w, o, Target(s.n, p, s.pc[p].ph))
    ensures QueueSame(s, SignalStep(s, p), i)
  {
  }

  lemma OtherQueue(s: State, w: Where, o: Option<nat>, p: nat, i: nat)
    requires Near(s, w, o, p, i) && Enabled(s, p) && !Signalling(s.pc[p])
    requires !s.pc[p].Down? && !s.pc[p].CvUpMutex? && !s.pc[p].LeaveMutex?
    ensures QueueSame(s, Step(s, p), i)
  {
  }

  lemma QueueSeat(s: State, w: Where, o: Option<nat>, p: nat, i: nat)
    requires InvAt(s, w, o) && p < s.n && i < s.n && Enabled(s, p)
    requires !s.pc[p].Down? && !s.pc[p].CvUpMutex? && !s.pc[p].LeaveMutex?
    ensures QueueSame(s, Step(s, p), i)
  {
    NearAll(s, w, o, p, i);
    if Signalling(s.pc[p]) {
      assert SeatFits(s, w, o, Target(s.n, p, s.pc[p].ph));
      SignalQueue(s, w, o, p, i);
    } else {
      OtherQueue(s, w, o, p, i);
    }
  }

  lemma QueueOtherwise(s: State, w: Where, o: Option<nat>, p: nat)
    requires InvAt(s, w, o) && p < s.n && Enabled(s, p) && !s.pc[p].Down? && !s.pc[p].CvUpMutex? && !s.pc[p].LeaveMutex?
    ensures Lists(Step(s, p).mutex, Waiters(Step(s, p)))
  {
    var s' := Step(s, p);
    QueueSeat(s, w, o, p, p);
    forall i: nat | i < s.n ensures s'.pc[i].Queued? == s.pc[i].Queued? {
      QueueSeat(s, w, o, p, i);
    }
    assert Waiters(s') == Waiters(s);
  }

  lemma StepQueue(s: State, w: Where, o: Option<nat>, p: nat)
    requires InvAt(s, w, o) && p < s.n && Enabled(s, p)
    ensures Lists(Step(s, p).mutex, Waiters(Step(s, p)))
  {
    NearAll(s, w, o, p, p);
    if s.pc[p].Down? {
      QueueOnDown(s, w, o, p);
    } else if s.pc[p].CvUpMutex? {
      QueueOnUp(s, w, o, p, CvDown);
    } else if s.pc[p].LeaveMutex? {
      QueueOnUp(s, w, o, p, Outside(s.pc[p].e));
    } else {
      QueueOtherwise(s, w, o, p);
    }
  }

  /** Every step of every philosopher keeps the invariant. */
  lemma StepKeepsInv(s: State, w: Where, o: Option<nat>, p: nat)
    requires InvAt(s, w, o) && p < s.n && Enabled(s, p)
    ensures InvAt(Step(s, p), NextWhere(s, w, p), NextOccupant(s, o, p))
  {
    NearAll(s, w, o, p, p);
    StepMonitor(s, w, o, p);
    StepQueue(s, w, o, p);
    var s', w', o' := Step(s, p), NextWhere(s, w, p), NextOccupant(s, o, p);
    StepSeat(s, w, o, p, p);
    forall i | 0 <= i < s.n ensures SeatFits(s', w', o', i) && SeatServed(s', o', i) {
      StepSeat(s, w, o, p, i);
    }
  }

  // ---------- runs ----------

  ghost predicate StepTo(s: State, s': State) {
    Shape(s) && exists p: nat :: p < s.n && Enabled(s, p) && s' == Step(s, p)
  }

  /** Any finite run, under any scheduler. */
  ghost predicate Run(r: seq<State>) {
    |r| > 0 && Initial(r[0]) && forall k :: 0 <= k < |r| - 1 ==> StepTo(r[k], r[k + 1])
  }

  /** Nobody can move. */
  ghost predicate Over(s: State) {
    forall p :: 0 <= p < |s.pc| ==> !Enabled(s, p)
  }

  /** The loop counter and the meals eaten agree with the program counter. */
  predicate MealFits(s: State, i: nat)
    requires Shape(s) && i < s.n
  {
    if s.pc[i].Loop? then s.meals[i] == s.iter[i] <= s.times
    else if s.pc[i].Quit? then s.meals[i] == s.times && s.iter[i] == s.times + 1
    else s.iter[i] <= s.times && s.iter[i] == s.meals[i] + (if BeforeMeal(s.pc[i]) then 1 else 0)
  }

  predicate BeforeMeal(pc: Pc) {
    match pc
    case Think | Eat | SetHungry | CvInc | CvTest | CvUpCount | CvUpMutex | CvDown | CvWait | CvDec => true
    case While(_) => true
    case Down(put) => !put
    case Queued(put) => !put
    case TestSelf(ph) => ph == Take
    case TestLeft(ph) => ph == Take
    case TestRight(ph) => ph == Take
    case SetEating(ph) => ph == Take
    case SigCount(ph) => ph == Take
    case SigInc(ph) => ph == Take
    case SigUp(ph) => ph == Take
    case SigDown(ph) => ph == Take
    case SigWait(ph) => ph == Take
    case SigDec(ph) => ph == Take
    case LeaveTest(e) => e != AfterPut
    case LeaveNext(e) => e != AfterPut
    case LeaveMutex(e) => e != AfterPut
    case _ => false
  }

  /** All that a step of another philosopher can do to seat i is wake it. */
  predicate OnlyWoken(s: State, s': State, i: nat)
    requires Shape(s) && i < s.n
  {
    && Shape(s') && s'.n == s.n && s'.times == s.times
    && s'.iter[i] == s.iter[i] && s'.meals[i] == s.meals[i]
    && (s'.pc[i] == s.pc[i] || s'.pc[i] == Resume(s.pc[i]))
  }

  lemma TestWakes(s: State, p: nat, i: nat)
    requires Shape(s) && p < s.n && i < s.n && i != p && Testing(s.pc[p])
    ensures OnlyWoken(s, TestStep(s, p), i)
  {
  }

  lemma SignalWakes(s: State, p: nat, i: nat)
    requires Shape(s) && p < s.n && i < s.n && i != p && Signalling(s.pc[p])
    ensures OnlyWoken(s, SignalStep(s, p), i)
  {
  }

  lemma WaitWakes(s: State, p: nat, i: nat)
    requires Shape(s) && p < s.n && i < s.n && i != p && Waiting(s.pc[p])
    ensures OnlyWoken(s, WaitStep(s, p), i)
  {
  }

  lemma LeaveWakes(s: State, p: nat, i: nat)
    requires Shape(s) && p < s.n && i < s.n && i != p && Leaving(s.pc[p])
    ensures OnlyWoken(s, LeaveStep(s, p), i)
  {
  }

  lemma OuterWakes(s: State, p: nat, i: nat)
    requires Shape(s) && p < s.n && i < s.n && i != p
    ensures OnlyWoken(s, OuterStep(s, p), i)
  {
  }

  lemma OthersOnlyWake(s: State, p: nat, i: nat)
    requires Shape(s) && p < s.n && i < s.n && i != p
    ensures OnlyWoken(s, Step(s, p), i)
  {
    if Testing(s.pc[p]) {
      TestWakes(s, p, i);
    } else if Signalling(s.pc[p]) {
      SignalWakes(s, p, i);
    } else if Waiting(s.pc[p]) {
      WaitWakes(s, p, i);
    } else if Leaving(s.pc[p]) {
      LeaveWakes(s, p, i);
    } else {
      OuterWakes(s, p, i);
    }
  }

  /** More steps than one turn of the loop can take. */
  const LAP := 60

  function Stage(ph: Phase): nat {
    match ph
    case Take => 42
    case PutLeft => 14
    case PutRight => 4
  }

  /** How many steps are at most left in this turn of the loop. */
  function Rank(pc: Pc): (k: nat)
    ensures k < LAP
  {
    match pc
    case Think => 58
    case Down(put) => if put then 27 else 57
    case Queued(put) => if put then 26 else 56
    case SetHungry => 55
    case TestSelf(ph) => Stage(ph) + 9
    case TestLeft(ph) => Stage(ph) + 8
    case TestRight(ph) => Stage(ph) + 7
    case SetEating(ph) => Stage(ph) + 6
    case SigCount(ph) => Stage(ph) + 5
    case SigInc(ph) => Stage(ph) + 4
    case SigUp(ph) => Stage(ph) + 3
    case SigDown(ph) => Stage(ph) + 2
    case SigWait(ph) => Stage(ph) + 1
    case SigDec(ph) => Stage(ph)
    case While(waited) => if waited then 33 else 41
    case CvInc => 40
    case CvTest => 39
    case CvUpCount => 38
    case CvUpMutex => 37
    case CvDown => 36
    case CvWait => 35
    case CvDec => 34
    case LeaveTest(e) => if e == AfterPut then 2 else 31
    case LeaveNext(e) => if e == AfterPut then 1 else 30
    case LeaveMutex(e) => if e == AfterPut then 1 else 30
    case Eat => 28
    case SetThinking => 25
    case Loop | Quit => 0
  }

  /** How many steps philosopher i can still make. */
  function Budget(s: State, i: nat): nat
    requires Shape(s) && i < s.n
  {
    (if s.iter[i] <= s.times then (s.times + 1 - s.iter[i]) * LAP else 0) + Rank(s.pc[i])
  }

  function Budgets(s: State): seq<nat>
    requires Shape(s)
  {
    seq(s.n, i requires 0 <= i < s.n => Budget(s, i))
  }

  /** A philosopher woken from cond_wait finds itself EATING. */
  predicate NoSecondWait(s: State, p: nat)
    requires Shape(s) && p < s.n
  {
    s.pc[p] == While(true) ==> s.mood[p] == Eating
  }

  /** p's own budget shrinks, and its meals still agree. */
  predicate Forward(s: State, s': State, p: nat)
    requires Shape(s) && p < s.n
  {
    Shape(s') && s'.n == s.n && MealFits(s', p) && Budget(s', p) < Budget(s, p)
  }

  lemma TestForward(s: State, p: nat)
    requires Shape(s) && p < s.n && MealFits(s, p) && Testing(s.pc[p])
    ensures Forward(s, TestStep(s, p), p)
  {
  }

  lemma GiveForward(s: State, p: nat)
    requires Shape(s) && p < s.n && MealFits(s, p) && s.pc[p].SigUp?
    ensures Forward(s, SignalStep(s, p), p)
  {
  }

  lemma CountForward(s: State, p: nat)
    requires Shape(s) && p < s.n && MealFits(s, p) && Signalling(s.pc[p]) && !s.pc[p].SigUp?
    ensures Forward(s, SignalStep(s, p), p)
  {
  }

  lemma WaitForward(s: State, p: nat)
    requires Shape(s) && p < s.n && MealFits(s, p) && Waiting(s.pc[p]) && NoSecondWait(s, p)
    ensures Forward(s, WaitStep(s, p), p)
  {
  }

  lemma LeaveForward(s: State, p: nat)
    requires Shape(s) && p < s.n && MealFits(s, p) && Leaving(s.pc[p])
    ensures Forward(s, LeaveStep(s, p), p)
  {
  }

  lemma OuterForward(s: State, p: nat)
    requires Shape(s) && p < s.n && MealFits(s, p) && (Plain(s.pc[p]) || s.pc[p].Down?)
    ensures Forward(s, OuterStep(s, p), p)
  {
    if s.pc[p].Loop? {
      assert (s.times + 1 - s.iter[p]) * LAP == (s.times - s.iter[p]) * LAP + LAP;
    }
  }

  lemma OwnProgress(s: State, p: nat)
    requires Shape(s) && p < s.n && Enabled(s, p) && MealFits(s, p) && NoSecondWait(s, p)
    ensures Forward(s, Step(s, p), p)
  {
    if Testing(s.pc[p]) {
      TestForward(s, p);
    } else if s.pc[p].SigUp? {
      GiveForward(s, p);
    } else if Signalling(s.pc[p]) {
      CountForward(s, p);
    } else if Waiting(s.pc[p]) {
      WaitForward(s, p);
    } else if Leaving(s.pc[p]) {
      LeaveForward(s, p);
    } else {
      OuterForward(s, p);
    }
  }

  lemma SeatProgress(s: State, p: nat, i: nat)
    requires Shape(s) && p < s.n && i < s.n && Enabled(s, p) && MealFits(s, i) && NoSecondWait(s, p)
    ensures
      var s' := Step(s, p);
      && Shape(s') && s'.n == s.n && MealFits(s', i)
      && Budget(s', i) + (if i == p then 1 else 0) <= Budget(s, i)
  {
    if i == p {
      OwnProgress(s, p);
    } else {
      OthersOnlyWake(s, p, i);
    }
  }

  ghost predicate Reached(s: State) {
    (exists w, o :: InvAt(s, w, o)) && forall i {:trigger MealFits(s, i)} :: 0 <= i < s.n ==> MealFits(s, i)
  }

  lemma BudgetStep(s: State, p: nat)
    requires Shape(s) && p < s.n && Enabled(s, p) && NoSecondWait(s, p)
    requires forall i {:trigger MealFits(s, i)} :: 0 <= i < s.n ==> MealFits(s, i)
    ensures
      var s' := Step(s, p);
      && Shape(s') && s'.n == s.n && Total(Budgets(s')) + 1 <= Total(Budgets(s))
      && forall i {:trigger MealFits(s', i)} :: 0 <= i < s'.n ==> MealFits(s', i)
  {
    var s' := Step(s, p);
    assert MealFits(s, p);
    SeatProgress(s, p, p);
    forall i | 0 <= i < s.n ensures MealFits(s', i) && Budget(s', i) + (if i == p then 1 else 0) <= Budget(s, i) {
      assert MealFits(s, i);
      SeatProgress(s, p, i);
    }
    TotalDrops(Budgets(s), Budgets(s'), p);
  }

  lemma ReachedStep(s: State, p: nat)
    requires Reached(s) && p < s.n && Enabled(s, p)
    ensures
      var s' := Step(s, p);
      Reached(s') && s'.n == s.n && s'.times == s.times && Total(Budgets(s')) + 1 <= Total(Budgets(s))
  {
    var w: Where, o: Option<nat> :| InvAt(s, w, o);
    StepKeepsInv(s, w, o, p);
    assert SeatFits(s, w, o, p) && NoSecondWait(s, p);
    BudgetStep(s, p);
    OthersOnlyWake(s, p, Left(s.n, p));
  }

  lemma {:induction false} RunInv(r: seq<State>)
    requires Run(r)
    ensures Reached(r[|r| - 1])
    ensures
      var s := r[|r| - 1];
      s.n == r[0].n && s.times == r[0].times && Total(Budgets(s)) + |r| - 1 <= Total(Budgets(r[0]))
  {
    if |r| == 1 {
      InitialInv(r[0]);
      assert forall i :: 0 <= i < r[0].n ==> MealFits(r[0], i);
    } else {
      var s, s' := r[|r| - 2], r[|r| - 1];
      assert Run(r[..|r| - 1]);
      RunInv(r[..|r| - 1]);
      assert StepTo(s, r[|r| - 2 + 1]);
      var p: nat :| p < s.n && Enabled(s, p) && s' == Step(s, p);
      ReachedStep(s, p);
    }
  }

  /** The invariant in the last state of a run, with the permission's place. */
  lemma RunInvAt(r: seq<State>) returns (w: Where, o: Option<nat>)
    requires Run(r)
    ensures var s := r[|r| - 1]; InvAt(s, w, o) && s.n == r[0].n && s.times == r[0].times
  {
    RunInv(r);
    w, o :| InvAt(r[|r| - 1], w, o);
  }

  // ---------- main results ----------

  /** Safety: in no reachable state do two neighbours eat, by the state array or
      by where they are. */
  lemma NeighboursNeverBothEat(r: seq<State>, i: nat)
    requires Run(r) && i < r[0].n
    ensures
      var s := r[|r| - 1];
      && Shape(s) && s.n == r[0].n
      && !(s.mood[i] == Eating && s.mood[Right(s.n, i)] == Eating)
      && !(s.pc[i] == Eat && s.pc[Right(s.n, i)] == Eat)
  {
    var w, o := RunInvAt(r);
    var s := r[|r| - 1];
    assert SeatFits(s, w, o, i) && SeatServed(s, o, i) && SeatFits(s, w, o, Right(s.n, i));
  }

  function CvValues(s: State, k: nat): int
    requires k <= |s.cv|
  {
    if k == 0 then 0 else CvValues(s, k - 1) + s.cv[k - 1].sem.value
  }

  function ActiveCount(s: State, k: nat): int
    requires k <= |s.pc|
  {
    if k == 0 then 0 else ActiveCount(s, k - 1) + (if Active(s.pc[k - 1]) then 1 else 0)
  }

  lemma {:induction false} CountUpTo(s: State, w: Where, o: Option<nat>, k: nat)
    requires InvAt(s, w, o) && k <= s.n
    ensures CvValues(s, k) == if w.InCv? && w.i < k then 1 else 0
    ensures ActiveCount(s, k) == if w.With? && w.i < k then 1 else 0
  {
    if k > 0 {
      CountUpTo(s, w, o, k - 1);
      assert SeatFits(s, w, o, k - 1);
    }
  }

  /** Conservation: the counts of all the monitor's semaphores and the number of
      threads active inside add up to one, always. */
  lemma OnePermission(r: seq<State>)
    requires Run(r)
    ensures
      var s := r[|r| - 1];
      && Shape(s)
      && s.mutex.value >= 0 && s.next.value >= 0
      && s.mutex.value + s.next.value + CvValues(s, s.n) + ActiveCount(s, s.n) == 1
  {
    var w, o := RunInvAt(r);
    CountUpTo(r[|r| - 1], w, o, r[0].n);
  }

  /** No lost signal: when a neighbour has just granted philosopher t its forks and
      is about to signal, t is counted as waiting, so the signal is delivered. */
  lemma SignalIsDelivered(r: seq<State>, p: nat)
    requires Run(r) && p < r[0].n
    ensures
      var s := r[|r| - 1];
      && Shape(s) && s.n == r[0].n
      && (s.pc[p].SigCount? && s.pc[p].ph != Take ==>
        var t := Target(s.n, p, s.pc[p].ph); t != p && s.cv[t].count > 0 && (s.pc[t].CvDown? || s.pc[t].CvWait?))
      && (s.pc[p].SigCount? && s.pc[p].ph == Take ==> s.cv[p].count == 0)
  {
    var w, o := RunInvAt(r);
    var s := r[|r| - 1];
    assert SeatFits(s, w, o, p);
    if s.pc[p].SigCount? {
      assert SeatFits(s, w, o, Target(s.n, p, s.pc[p].ph));
    }
  }

  /** cond_wait is never called while a signaller waits, so the branch that would
      do up on the integer next_count is never taken; and a philosopher that comes
      back from cond_wait never has to wait again. */
  lemma CondWaitIsClean(r: seq<State>, p: nat)
    requires Run(r) && p < r[0].n
    ensures
      var s := r[|r| - 1];
      && Shape(s) && s.n == r[0].n && s.pc[p] != CvUpCount
      && (s.pc[p].CvInc? || s.pc[p].CvTest? ==> s.nextCount == 0)
      && (s.pc[p] == While(true) ==> s.mood[p] == Eating)
  {
    var w, o := RunInvAt(r);
    assert SeatFits(r[|r| - 1], w, o, p);
  }

  lemma FreeMeansMoving(s: State, o: Option<nat>, i: nat)
    requires InvAt(s, InMutex, o) && i < s.n && s.pc[i] != Quit && !Enabled(s, i)
    ensures Enabled(s, Left(s.n, i)) || Enabled(s, Right(s.n, i))
  {
    var l, r := Left(s.n, i), Right(s.n, i);
    assert s.mutex.queue == [];
    assert i !in Waiters(s) && l !in Waiters(s) && r !in Waiters(s);
    assert SeatFits(s, InMutex, o, i) && SeatServed(s, o, i);
    assert s.pc[i].CvWait? && s.mood[i] == Hungry;
    assert SeatFits(s, InMutex, o, l) && SeatFits(s, InMutex, o, r);
  }

  lemma SomebodyCanMove(s: State, w: Where, o: Option<nat>, i: nat)
    requires InvAt(s, w, o) && i < s.n && s.pc[i] != Quit
    ensures exists p :: 0 <= p < s.n && Enabled(s, p)
  {
    match w
    case With(q) =>
      assert SeatFits(s, w, o, q);
      assert Enabled(s, q);
    case InNext => assert Enabled(s, o.value);
    case InCv(q) => assert Enabled(s, q);
    case InMutex =>
      if !Enabled(s, i) {
        FreeMeansMoving(s, o, i);
      }
  }

  /** No reachable state is deadlocked: when nobody can move, everybody has quit. */
  lemma NoDeadlock(r: seq<State>, i: nat)
    requires Run(r) && Over(r[|r| - 1]) && i < r[0].n
    ensures var s := r[|r| - 1]; Shape(s) && s.n == r[0].n && s.pc[i] == Quit
  {
    var w, o := RunInvAt(r);
    var s := r[|r| - 1];
    if s.pc[i] != Quit {
      SomebodyCanMove(s, w, o, i);
    }
  }

  lemma InitialBudget(s: State)
    requires Initial(s)
    ensures Total(Budgets(s)) == s.n * ((s.times + 1) * LAP)
  {
    TotalOfEqual(Budgets(s), (s.times + 1) * LAP);
  }

  /** Termination under any scheduler: a run of n philosophers with `times` meals
      each makes at most n * (times + 1) * 60 steps, and one that cannot be
      continued has fed each of them exactly `times` times. */
  lemma EveryRunFeedsAll(r: seq<State>, i: nat)
    requires Run(r) && i < r[0].n
    ensures |r| - 1 <= r[0].n * ((r[0].times + 1) * LAP)
    ensures
      var s := r[|r| - 1];
      Shape(s) && s.n == r[0].n && (Over(s) ==> s.meals[i] == r[0].times)
  {
    RunInv(r);
    InitialBudget(r[0]);
    var s := r[|r| - 1];
    if Over(s) {
      NoDeadlock(r, i);
      assert MealFits(s, i);
    }
  }
}
