// The mailbox object: the pool array and the offsets of project/rt-thread/src/ipc.c, updated in place.
module Mailboxes {
  import opened Basics
  import opened SuspendList
  import opened MailboxModel

  // How the region at the head of a call ends: the transfer is done and a thread may have to be
  // resumed, or the box is full (empty) and the caller must wait or give up.
  datatype Outcome = Done(woken: Option<nat>) | Overflow | Blocked

  class Mailbox {
    const msgPool: array<Mail>
    const size: nat
    var inOffset: nat
    var outOffset: nat
    var entry: nat
    var recvWait: seq<nat>
    var sendWait: seq<nat>

    ghost function Abs(): Box
      reads this, msgPool
    {
      Box(msgPool[..], size, inOffset, outOffset, entry)
    }

    ghost predicate Valid()
      reads this, msgPool
    {
      Ok(Abs())
    }

    ghost function Mails(): seq<Mail>
      requires Valid()
      reads this, msgPool
    {
      Queue(Abs())
    }

    constructor (pool: array<Mail>, size: nat)
      requires size <= pool.Length && size <= ENTRY_MAX
      ensures Valid() && Mails() == [] && recvWait == [] && sendWait == []
      ensures msgPool == pool && this.size == size
    {
      msgPool := pool;
      this.size := size;
      inOffset, outOffset, entry := 0, 0, 0;
      recvWait, sendWait := [], [];
    }

    // The first suspended receiver, taken off its list.
    method WakeReceiver() returns (woken: Option<nat>)
      modifies this`recvWait
      ensures woken == if old(recvWait) == [] then None else Some(old(recvWait)[0])
      ensures recvWait == if old(recvWait) == [] then [] else old(recvWait)[1..]
    {
      woken := None;
      if recvWait != [] {
        woken, recvWait := Some(recvWait[0]), recvWait[1..];
      }
    }

    // Each pass of a send through its lock region.
    method Send(value: Mail) returns (res: Outcome)
      requires Valid()
      modifies this`inOffset, this`entry, this`recvWait, msgPool
      ensures Valid()
      ensures res.Blocked? <==> old(entry) == size
      ensures res.Blocked? ==> Abs() == old(Abs()) && recvWait == old(recvWait)
      ensures !res.Blocked? ==> Abs() == PutTail(old(Abs()), value).0
      ensures !res.Blocked? ==> Mails() == old(Mails()) + [value]
      ensures !res.Blocked? ==> res == Done(if old(recvWait) == [] then None else Some(old(recvWait)[0]))
      ensures !res.Blocked? ==> recvWait == if old(recvWait) == [] then [] else old(recvWait)[1..]
    {
      if entry == size {
        return Blocked;
      }
      PutTailAppends(Abs(), value);
      msgPool[inOffset] := value;
      inOffset := inOffset + 1;
      if inOffset >= size {
        inOffset := 0;
      }
      if entry < ENTRY_MAX {
        entry := entry + 1;
      } else {
        return Overflow;
      }
      var woken := WakeReceiver();
      return Done(woken);
    }

    // An urgent send fails instead of waiting.
    method Urgent(value: Mail) returns (res: Outcome)
      requires Valid()
      modifies this`outOffset, this`entry, this`recvWait, msgPool
      ensures Valid()
      ensures res.Blocked? <==> old(entry) == size
      ensures res.Blocked? ==> Abs() == old(Abs()) && recvWait == old(recvWait)
      ensures !res.Blocked? ==> Abs() == PutHead(old(Abs()), value)
      ensures !res.Blocked? ==> Mails() == [value] + old(Mails())
      ensures !res.Blocked? ==> res == Done(if old(recvWait) == [] then None else Some(old(recvWait)[0]))
      ensures !res.Blocked? ==> recvWait == if old(recvWait) == [] then [] else old(recvWait)[1..]
    {
      if entry == size {
        return Blocked;
      }
      PutHeadPrepends(Abs(), value);
      if outOffset > 0 {
        outOffset := outOffset - 1;
      } else {
        outOffset := size - 1;
      }
      msgPool[outOffset] := value;
      entry := entry + 1;
      var woken := WakeReceiver();
      return Done(woken);
    }

    // Each pass of a receive through its lock region.
    method Recv() returns (res: Outcome, value: Mail)
      requires Valid()
      modifies this`outOffset, this`entry, this`sendWait
      ensures Valid()
      ensures res.Blocked? <==> old(entry) == 0
      ensures res.Blocked? ==> Abs() == old(Abs()) && sendWait == old(sendWait)
      ensures !res.Blocked? ==> (Abs(), value) == TakeHead(old(Abs()))
      ensures !res.Blocked? ==> old(Mails()) == [value] + Mails()
      ensures !res.Blocked? ==> res == Done(if old(sendWait) == [] then None else Some(old(sendWait)[0]))
      ensures !res.Blocked? ==> sendWait == if old(sendWait) == [] then [] else old(sendWait)[1..]
    {
      if entry == 0 {
        return Blocked, 0;
      }
      TakeHeadPops(Abs());
      value := msgPool[outOffset];
      outOffset := outOffset + 1;
      if outOffset >= size {
        outOffset := 0;
      }
      if entry > 0 {
        entry := entry - 1;
      }
      var woken := None;
      if sendWait != [] {
        woken, sendWait := Some(sendWait[0]), sendWait[1..];
      }
      res := Done(woken);
    }

    // rt_mb_control with RT_IPC_CMD_RESET: the receivers and then the senders are resumed, with the given
    // error for each.
    method Reset() returns (dismissed: seq<nat>, error: int)
      requires Valid()
      modifies this
      ensures Valid() && Mails() == [] && recvWait == [] && sendWait == []
      ensures dismissed == old(recvWait) + old(sendWait) && error == RT_ERROR
    {
      dismissed, error := recvWait + sendWait, RT_ERROR;
      recvWait, sendWait := [], [];
      entry, inOffset, outOffset := 0, 0, 0;
    }
  }
}
