// The counting semaphore of project/rt-thread/src/ipc.c. A release either hands its token to the first
// suspended taker or adds it to the value; a resumed taker already owns the token and never looks at
// the value again.
module SemaphoreModel {
  import opened Basics
  import opened WaitList
  import opened SuspendList

  const WORD16: nat := 65536

  datatype Core = Core(value: nat, limit: nat, wait: seq<nat>)

  datatype Taking = Taken | Refused | Suspended

  function TakeCore(c: Core, t: nat, wait: Patience): (res: (Core, Taking))
    requires WaitFits(wait, c.wait)
  {
    if c.value > 0 then (c.(value := c.value - 1), Taken)
    else
      match wait
      case NoWait => (c, Refused)
      case WaitAt(pos) => (c.(wait := InsertAt(c.wait, pos, t)), Suspended)
  }

  // Whether the token was accepted, and the thread it goes to.
  function ReleaseCore(c: Core): (res: (Core, bool, Option<nat>)) {
    if c.wait != [] then (c.(wait := c.wait[1..]), true, Some(c.wait[0]))
    else if c.value < c.limit then (c.(value := c.value + 1), true, None)
    else (c, false, None)
  }

  // RT_IPC_CMD_RESET; the new value is cut to 16 bits.
  function ResetCore(c: Core, value: nat): Core {
    c.(value := value % WORD16, wait := [])
  }

  // RT_IPC_CMD_SET_VLIMIT; the flag says whether the limit is accepted.
  function LimitCore(c: Core, limit: nat): (res: (Core, bool)) {
    var m := limit % WORD16;
    if m < 1 then (c, false)
    else (c.(limit := m, wait := if m < c.value then [] else c.wait), true)
  }

  // Dismissed: a reset has resumed the thread with an error.
  datatype Pc = Idle | Waiting | Granted | Dismissed

  datatype Sem = Sem(core: Core, pc: seq<Pc>)

  datatype Step =
    | Take(t: nat, wait: Patience)
    | Return(t: nat)
    | TimeOut(t: nat)
    | Leave(t: nat)
    | Release
    | Reset(value: nat)
    | SetLimit(limit: nat)

  datatype Answer = Nothing | Failed | Got | Put

  predicate Enabled(s: Sem, step: Step) {
    match step
    case Take(t, wait) => t < |s.pc| && s.pc[t].Idle? && WaitFits(wait, s.core.wait)
    case Return(t) => t < |s.pc| && s.pc[t].Granted?
    case TimeOut(t) => t < |s.pc| && s.pc[t].Waiting?
    case Leave(t) => t < |s.pc| && s.pc[t].Dismissed?
    case _ => true
  }

  function Grant(pc: seq<Pc>, who: Option<nat>): (r: seq<Pc>)
    ensures |r| == |pc|
  {
    if who.Some? && who.value < |pc| then pc[who.value := Granted] else pc
  }

  // The waiting threads that are no longer on the list will return an error.
  function Dismiss(pc: seq<Pc>, wait: seq<nat>): (r: seq<Pc>)
    ensures |r| == |pc|
  {
    seq(|pc|, t requires 0 <= t < |pc| => if pc[t].Waiting? && t !in wait then Dismissed else pc[t])
  }

  function Next(s: Sem, step: Step): (res: (Sem, Answer))
    requires Enabled(s, step)
  {
    match step
    case Take(t, wait) =>
      var (c, how) := TakeCore(s.core, t, wait);
      (match how
       case Taken => (Sem(c, s.pc), Got)
       case Refused => (Sem(c, s.pc), Failed)
       case Suspended => (Sem(c, s.pc[t := Waiting]), Nothing))
    case Return(t) => (s.(pc := s.pc[t := Idle]), Got)
    case TimeOut(t) => (Sem(s.core.(wait := Remove(s.core.wait, t)), s.pc[t := Idle]), Failed)
    case Leave(t) => (s.(pc := s.pc[t := Idle]), Failed)
    case Release =>
      var (c, ok, who) := ReleaseCore(s.core);
      (Sem(c, Grant(s.pc, who)), if ok then Put else Failed)
    case Reset(v) => (Sem(ResetCore(s.core, v), Dismiss(s.pc, [])), Nothing)
    case SetLimit(m) =>
      var (c, ok) := LimitCore(s.core, m);
      (Sem(c, Dismiss(s.pc, c.wait)), if ok then Nothing else Failed)
  }

  ghost predicate Listed(s: Sem) {
    NoDup(s.core.wait) && forall t: nat :: t in s.core.wait <==> t < |s.pc| && s.pc[t].Waiting?
  }

  // Nobody is suspended while a token is there to be taken.
  ghost predicate Safe(s: Sem) {
    Listed(s) && (s.core.value > 0 ==> s.core.wait == [])
  }

  function Start(value: nat, limit: nat, threads: nat): Sem {
    Sem(Core(value, limit, []), seq(threads, i => Idle))
  }

  /** Every step keeps: no token available while somebody is suspended. */
  lemma NextSafe(s: Sem, step: Step)
    requires Safe(s) && Enabled(s, step)
    ensures Safe(Next(s, step).0)
  {
    match step
    case Take(t, wait) =>
      if wait.WaitAt? {
        InsertedInto(s.core.wait, wait.pos, t);
      }
    case TimeOut(t) => TakenOut(s.core.wait, t);
    case Release =>
      if s.core.wait != [] {
        FrontOut(s.core.wait);
        assert s.core.wait[0] in s.core.wait;
      }
    case _ =>
  }

  ghost function Run(s: Sem, steps: seq<Step>): (end: Sem)
    requires Safe(s)
    ensures Safe(end)
    decreases |steps|
  {
    if steps == [] then s
    else if Enabled(s, steps[0]) then
      NextSafe(s, steps[0]);
      Run(Next(s, steps[0]).0, steps[1..])
    else Run(s, steps[1..])
  }

  /** In no reachable state is a taker suspended while the value is positive. */
  lemma EveryRunSafe(value: nat, limit: nat, threads: nat, steps: seq<Step>)
    ensures Safe(Start(value, limit, threads))
    ensures var s := Run(Start(value, limit, threads), steps);
            forall t :: 0 <= t < |s.pc| && s.pc[t].Waiting? ==> s.core.value == 0
  {
    var s := Run(Start(value, limit, threads), steps);
    forall t | 0 <= t < |s.pc| && s.pc[t].Waiting?
      ensures s.core.value == 0
    {
      assert t in s.core.wait;
    }
  }

  // Tokens: those in the value and those handed to threads that have not run yet.
  function GrantMarks(pc: seq<Pc>): (m: seq<nat>)
    ensures |m| == |pc|
  {
    seq(|pc|, t requires 0 <= t < |pc| => if pc[t].Granted? then 1 else 0)
  }

  function Tokens(s: Sem): nat {
    s.core.value + Sum(GrantMarks(s.pc))
  }

  lemma MarkUpdate(pc: seq<Pc>, t: nat, p: Pc)
    requires t < |pc|
    ensures Sum(GrantMarks(pc[t := p]))
         == Sum(GrantMarks(pc)) - (if pc[t].Granted? then 1 else 0) + (if p.Granted? then 1 else 0)
  {
    SumUpdate(GrantMarks(pc), t, if p.Granted? then 1 else 0);
    assert GrantMarks(pc[t := p]) == GrantMarks(pc)[t := if p.Granted? then 1 else 0];
  }

  // A successful take costs one token, an accepted release brings one, nothing else moves any.
  lemma StepTokens(s: Sem, step: Step)
    requires Safe(s) && Enabled(s, step) && !step.Reset?
    ensures var (n, answer) := Next(s, step);
            Tokens(n) + (if answer.Got? then 1 else 0) == Tokens(s) + (if answer.Put? then 1 else 0)
  {
    hide GrantMarks, InsertAt, Remove;
    match step
    case Take(t, wait) => MarkUpdate(s.pc, t, Waiting);
    case Return(t) => MarkUpdate(s.pc, t, Idle);
    case TimeOut(t) => MarkUpdate(s.pc, t, Idle);
    case Leave(t) => MarkUpdate(s.pc, t, Idle);
    case Release =>
      if s.core.wait != [] {
        assert s.core.wait[0] in s.core.wait;
        MarkUpdate(s.pc, s.core.wait[0], Granted);
      }
    case SetLimit(m) => LimitWakesNobody(s, m);
  }

  /** Lowering the limit below the value would resume all takers with an error, but there are none then:
    * the branch has nothing to do in any reachable state. */
  lemma LimitWakesNobody(s: Sem, limit: nat)
    requires Safe(s)
    ensures var n := Next(s, SetLimit(limit)).0; n.pc == s.pc && n.core.wait == s.core.wait
  {
  }

  // Successful takes and accepted releases of a run.
  ghost function Takes(s: Sem, steps: seq<Step>): nat
    requires Safe(s)
    decreases |steps|
  {
    if steps == [] then 0
    else if Enabled(s, steps[0]) then
      NextSafe(s, steps[0]);
      (if Next(s, steps[0]).1.Got? then 1 else 0) + Takes(Next(s, steps[0]).0, steps[1..])
    else Takes(s, steps[1..])
  }

  ghost function Releases(s: Sem, steps: seq<Step>): nat
    requires Safe(s)
    decreases |steps|
  {
    if steps == [] then 0
    else if Enabled(s, steps[0]) then
      NextSafe(s, steps[0]);
      (if Next(s, steps[0]).1.Put? then 1 else 0) + Releases(Next(s, steps[0]).0, steps[1..])
    else Releases(s, steps[1..])
  }

  /** Tokens are neither lost nor made up: over any run without resets, takes and releases balance with
    * the change of the value and of the tokens on their way to resumed threads. */
  lemma {:induction false} TokensConserved(s: Sem, steps: seq<Step>)
    requires Safe(s)
    requires forall k :: 0 <= k < |steps| ==> !steps[k].Reset?
    ensures Tokens(Run(s, steps)) + Takes(s, steps) == Tokens(s) + Releases(s, steps)
    decreases |steps|
  {
    hide Safe, Next, Enabled, Tokens;
    if steps == [] {
    } else if Enabled(s, steps[0]) {
      NextSafe(s, steps[0]);
      StepTokens(s, steps[0]);
      TokensConserved(Next(s, steps[0]).0, steps[1..]);
    } else {
      TokensConserved(s, steps[1..]);
    }
  }

  /** The limit bounds the value after a step exactly when the step is no reset above the limit and no new
    * limit below the value; releases respect it always. */
  lemma LimitKeptIff(s: Sem, step: Step)
    requires Enabled(s, step) && s.core.value <= s.core.limit
    ensures var n := Next(s, step).0;
            n.core.value <= n.core.limit
            <==> (step.Reset? ==> step.value % WORD16 <= s.core.limit)
                 && (step.SetLimit? && step.limit % WORD16 > 0 ==> s.core.value <= step.limit % WORD16)
  {
    hide InsertAt, Remove, Dismiss;
  }

  /** A semaphore that was given a limit of one token holds five after a reset to five. */
  lemma ResetBreaksLimit()
    ensures var s := Next(Start(0, WORD16 - 1, 1), SetLimit(1)).0;
            && s.core.value <= s.core.limit
            && var r := Next(s, Reset(5)).0; r.core.value == 5 && r.core.limit == 1
  {
  }
}
