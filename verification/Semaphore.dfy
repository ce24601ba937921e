// The semaphore object, updated in place.
module Semaphores {
  import opened Basics
  import opened SuspendList
  import opened SemaphoreModel

  class Semaphore {
    var value: nat
    var maxValue: nat
    var suspendThread: seq<nat>

    ghost function Abs(): Core
      reads this
    {
      Core(value, maxValue, suspendThread)
    }

    constructor (value: nat)
      requires value < WORD16
      ensures Abs() == Start(value, 65535, 0).core
    {
      this.value := value;
      maxValue := 65535;
      suspendThread := [];
    }

    // The lock region of a take by thread t.
    method Take(t: nat, wait: Patience) returns (how: Taking)
      requires WaitFits(wait, suspendThread)
      modifies this
      ensures (Abs(), how) == TakeCore(old(Abs()), t, wait)
      // a token is taken iff there is one; without one the caller is refused or suspended at its place
      ensures how == Taken <==> old(value) > 0
      ensures how == Refused <==> old(value) == 0 && wait.NoWait?
      ensures value == if how == Taken then old(value) - 1 else old(value)
      ensures maxValue == old(maxValue)
      ensures suspendThread ==
        if how == Suspended then old(suspendThread)[..wait.pos] + [t] + old(suspendThread)[wait.pos..]
        else old(suspendThread)
    {
      if value > 0 {
        value := value - 1;
        return Taken;
      } else {
        match wait
        case NoWait => return Refused;
        case WaitAt(pos) =>
          suspendThread := InsertAt(suspendThread, pos, t);
          return Suspended;
      }
    }

    method Release() returns (ok: bool, resumed: Option<nat>)
      modifies this
      ensures (Abs(), ok, resumed) == ReleaseCore(old(Abs()))
      // the first suspended thread gets the token, if there is one, and otherwise the value, up to its limit
      ensures ok <==> old(suspendThread) != [] || old(value) < old(maxValue)
      ensures resumed == if old(suspendThread) == [] then None else Some(old(suspendThread)[0])
      ensures suspendThread == if resumed.Some? then old(suspendThread)[1..] else old(suspendThread)
      ensures value == if ok && resumed == None then old(value) + 1 else old(value)
      ensures maxValue == old(maxValue)
    {
      if suspendThread != [] {
        resumed := Some(suspendThread[0]);
        suspendThread := suspendThread[1..];
      } else {
        resumed := None;
        if value < maxValue {
          value := value + 1;
        } else {
          return false, None;
        }
      }
      ok := true;
    }

    // RT_IPC_CMD_RESET: the threads dismissed, in order, with the given error for each.
    method Reset(newValue: nat) returns (dismissed: seq<nat>, error: int)
      modifies this
      ensures Abs() == ResetCore(old(Abs()), newValue)
      ensures dismissed == old(suspendThread) && error == RT_ERROR
      ensures suspendThread == [] && value == newValue % WORD16 && maxValue == old(maxValue)
    {
      error := RT_ERROR;
      dismissed := ResumeAll();
      value := newValue % WORD16;
    }

    // rt_susp_list_resume_all: dequeue until the list is empty.
    method ResumeAll() returns (resumed: seq<nat>)
      modifies this`suspendThread
      ensures suspendThread == [] && resumed == old(suspendThread)
    {
      resumed := [];
      while suspendThread != []
        invariant resumed + suspendThread == old(suspendThread)
        decreases |suspendThread|
      {
        resumed, suspendThread := resumed + [suspendThread[0]], suspendThread[1..];
      }
    }

    // RT_IPC_CMD_SET_VLIMIT.
    method SetLimit(limit: nat) returns (ok: bool)
      modifies this
      ensures (Abs(), ok) == LimitCore(old(Abs()), limit)
      ensures ok <==> limit % WORD16 != 0
      ensures maxValue == (if ok then limit % WORD16 else old(maxValue)) && value == old(value)
    {
      var newLimit := limit % WORD16;
      if newLimit > 65535 || newLimit < 1 {
        return false;
      }
      if newLimit < value {
        if suspendThread != [] {
          var dismissed := ResumeAll();
        }
      }
      maxValue := newLimit;
      ok := true;
    }
  }
}
