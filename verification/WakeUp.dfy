/** One reader in `tcp_sock_read` and one writer in `tcp_rcv_data_packet`, sharing a receive buffer
    and a `synch_wait`, stepping in any interleaving. Every lock operation is a step of its own. */
module WakeUp {

  import opened TcpRing

  datatype Owner = Free | ByReader | ByWriter

  datatype ReaderPc =
    | Idle            // outside tcp_sock_read
    | Checking        // holds rw_lock, about to test for an empty buffer
    | MustSleep       // found the buffer empty, released rw_lock, about to call sleep_on
    | EnteringSleep   // holds the wait lock, about to test `dead`
    | Blocked         // in pthread_cond_wait, lock released, not signalled
    | Woken           // signalled or spuriously awake, about to take the wait lock back
    | LeavingSleep    // holds the wait lock, about to clear the flags
    | Relocking       // back from sleep_on, about to take rw_lock
    | Reading         // holds rw_lock, about to read

  datatype WriterPc =
    | Outside         // outside tcp_rcv_data_packet
    | Writing         // holds rw_lock, about to write
    | Wrote           // released rw_lock, about to call wake_up
    | Waking          // holds the wait lock, about to notify

  /** The flags of a `synch_wait`. */
  datatype Flags = Flags(notified: bool, sleeping: bool, dead: bool)

  datatype State = State(
    r: ReaderPc, w: WriterPc,
    rwLock: Owner, waitLock: Owner,
    wait: Flags,
    buf: seq<byte>, size: nat,
    written: seq<byte>, got: seq<byte>)

  datatype Step =
    | ReaderStep(len: nat)           // `len` is what the caller asks for; used by the read only
    | SpuriousWakeUp
    | WriterStep(data: seq<byte>)    // `data` is the payload; used by the write only
    | Exit                           // wait_exit, by any thread

  /** A step can be taken unless its thread waits for a lock or a signal, or the write would not fit. */
  predicate Enabled(s: State, x: Step) {
    match x
    case ReaderStep(_) => (
      match s.r
      case Idle => s.rwLock == Free
      case MustSleep => s.waitLock == Free
      case Woken => s.waitLock == Free
      case Relocking => s.rwLock == Free
      case Blocked => false
      case _ => true)
    case SpuriousWakeUp => s.r == Blocked
    case WriterStep(data) => (
      match s.w
      case Outside => s.rwLock == Free
      case Writing => |data| > 0 && |s.buf| + |data| < s.size
      case Wrote => s.waitLock == Free
      case Waking => true)
    case Exit => s.waitLock == Free
  }

  // ----- what each locked section does to the flags -----

  /** `sleep_on` up to the wait: whether to block, and the flags then. */
  function Blocks(f: Flags): bool {
    !f.dead && !f.notified
  }

  function Entered(f: Flags): Flags {
    if f.dead then f else f.(sleeping := true)
  }

  /** `sleep_on` after the wait. */
  function Left(f: Flags): Flags {
    f.(notified := false, sleeping := false)
  }

  /** `wake_up`: whether to signal, and the flags then. */
  function Signals(f: Flags): bool {
    !f.dead && !f.notified && f.sleeping
  }

  function Woke(f: Flags): Flags {
    if f.dead || f.notified then f else f.(notified := true)
  }

  /** `wait_exit`: whether to broadcast, and the flags then. */
  function Broadcasts(f: Flags): bool {
    !f.dead && f.sleeping
  }

  function Closed(f: Flags): Flags {
    f.(dead := true)
  }

  class SynchWait {
    var notified: bool
    var sleeping: bool
    var dead: bool

    ghost function State(): Flags
      reads this
    {
      Flags(notified, sleeping, dead)
    }

    constructor ()
      ensures State() == Flags(false, false, false)
    {
      notified, sleeping, dead := false, false, false;
    }

    /** The part of `sleep_on` before `pthread_cond_wait`; `waits` says whether that call is made. */
    method EnterSleep() returns (waits: bool)
      modifies this
      ensures State() == Entered(old(State())) && waits == Blocks(old(State()))
      ensures dead == old(dead) && notified == old(notified) && sleeping == (old(sleeping) || !dead)
      ensures waits <==> !dead && !notified
    {
      if dead {
        return false;
      }
      sleeping := true;
      waits := !notified;
    }

    method LeaveSleep()
      modifies this
      ensures State() == Left(old(State()))
      ensures dead == old(dead) && !notified && !sleeping
    {
      notified := false;
      sleeping := false;
    }

    method WakeUp() returns (signalled: bool)
      modifies this
      ensures State() == Woke(old(State())) && signalled == Signals(old(State()))
      ensures dead == old(dead) && sleeping == old(sleeping) && notified == (old(notified) || !dead)
      ensures signalled <==> notified && !old(notified) && sleeping
    {
      signalled := false;
      if dead {
        return;
      }
      if !notified {
        notified := true;
        if sleeping {
          signalled := true;
        }
      }
    }

    method WaitExit() returns (broadcast: bool)
      modifies this
      ensures State() == Closed(old(State())) && broadcast == Broadcasts(old(State()))
      ensures dead && sleeping == old(sleeping) && notified == old(notified)
      ensures broadcast <==> !old(dead) && sleeping
    {
      broadcast := false;
      if dead {
        return;
      }
      dead := true;
      if sleeping {
        broadcast := true;
      }
    }
  }

  // ----- steps -----

  function Min(a: nat, b: nat): nat {
    if a < b then a else b
  }

  function ReaderNext(s: State, len: nat): State {
    match s.r
    case Idle => s.(r := Checking, rwLock := ByReader)
    case Checking => if s.buf == [] then s.(r := MustSleep, rwLock := Free) else s.(r := Reading)
    case MustSleep => s.(r := EnteringSleep, waitLock := ByReader)
    case EnteringSleep =>
      var t := s.(wait := Entered(s.wait));
      if s.wait.dead then t.(r := Relocking, waitLock := Free)
      else if Blocks(s.wait) then t.(r := Blocked, waitLock := Free)
      else t.(r := LeavingSleep)
    case Blocked => s
    case Woken => s.(r := LeavingSleep, waitLock := ByReader)
    case LeavingSleep => s.(r := Relocking, wait := Left(s.wait), waitLock := Free)
    case Relocking => s.(r := Reading, rwLock := ByReader)
    case Reading =>
      var n := Min(len, |s.buf|);
      s.(r := Idle, rwLock := Free, buf := s.buf[n..], got := s.got + s.buf[..n])
  }

  /** A signal or broadcast reaches the reader only if it is blocked on the condition variable. */
  function Signalled(s: State): State {
    if s.r == Blocked then s.(r := Woken) else s
  }

  function WriterNext(s: State, data: seq<byte>): State {
    match s.w
    case Outside => s.(w := Writing, rwLock := ByWriter)
    case Writing => s.(w := Wrote, rwLock := Free, buf := s.buf + data, written := s.written + data)
    case Wrote => s.(w := Waking, waitLock := ByWriter)
    case Waking =>
      var t := s.(w := Outside, waitLock := Free, wait := Woke(s.wait));
      if Signals(s.wait) then Signalled(t) else t
  }

  function Next(s: State, x: Step): State
    requires Enabled(s, x)
  {
    match x
    case ReaderStep(len) => ReaderNext(s, len)
    case SpuriousWakeUp => s.(r := Woken)
    case WriterStep(data) => WriterNext(s, data)
    case Exit =>
      var t := s.(wait := Closed(s.wait));
      if Broadcasts(s.wait) then Signalled(t) else t
  }

  function Init(size: nat): State {
    State(Idle, Outside, Free, Free, Flags(false, false, false), [], size, [], [])
  }

  // ----- invariants -----

  /** Each lock is held exactly at the points where its thread is between taking and releasing it. */
  ghost predicate LocksHeld(s: State) {
    && (s.rwLock == ByReader <==> s.r == Checking || s.r == Reading)
    && (s.rwLock == ByWriter <==> s.w == Writing)
    && (s.waitLock == ByReader <==> s.r == EnteringSleep || s.r == LeavingSleep)
    && (s.waitLock == ByWriter <==> s.w == Waking)
  }

  /** The writer has put data in the buffer and not yet finished telling the reader. */
  ghost predicate WakeUpPending(s: State) {
    s.w == Wrote || s.w == Waking
  }

  ghost predicate Inv(s: State) {
    && LocksHeld(s)
    && (s.wait.sleeping <==> s.r == Blocked || s.r == Woken || s.r == LeavingSleep)
    && (s.r == Blocked ==> !s.wait.notified && !s.wait.dead)
    && (s.r == Blocked && s.buf != [] ==> WakeUpPending(s))
    && ((s.r == MustSleep || s.r == EnteringSleep) && s.buf != [] ==> s.wait.notified || s.wait.dead || WakeUpPending(s))
    && s.got + s.buf == s.written
  }

  lemma StepKeepsInv(s: State, x: Step)
    requires Inv(s) && Enabled(s, x)
    ensures Inv(Next(s, x))
  {
    match x
    case ReaderStep(len) => ReaderKeepsInv(s, len);
    case WriterStep(data) => WriterKeepsInv(s, data);
    case _ =>
  }

  lemma ReaderKeepsInv(s: State, len: nat)
    requires Inv(s) && Enabled(s, ReaderStep(len))
    ensures Inv(ReaderNext(s, len))
  {
    if s.r == Reading {
      var n := Min(len, |s.buf|);
      assert s.got + s.buf[..n] + s.buf[n..] == s.got + s.buf;
    }
  }

  lemma WriterKeepsInv(s: State, data: seq<byte>)
    requires Inv(s) && Enabled(s, WriterStep(data))
    ensures Inv(WriterNext(s, data))
  {
    if s.w == Writing {
      assert s.got + (s.buf + data) == s.written + data;
    }
  }

  // ----- runs -----

  ghost predicate IsRun(s: State, xs: seq<Step>)
    decreases |xs|
  {
    xs == [] || (Enabled(s, xs[0]) && IsRun(Next(s, xs[0]), xs[1..]))
  }

  ghost function Reached(s: State, xs: seq<Step>): State
    requires IsRun(s, xs)
    decreases |xs|
  {
    if xs == [] then s else Reached(Next(s, xs[0]), xs[1..])
  }

  lemma {:induction false} RunKeepsInv(s: State, xs: seq<Step>)
    requires Inv(s) && IsRun(s, xs)
    ensures Inv(Reached(s, xs))
    decreases |xs|
  {
    if xs != [] {
      StepKeepsInv(s, xs[0]);
      RunKeepsInv(Next(s, xs[0]), xs[1..]);
    }
  }

  /** No wake-up is lost: in every interleaving the reader is blocked with data in the buffer only
      while the writer is between its write and the end of its wake_up; and what has been read
      followed by what is buffered is what was written. */
  lemma NoLostWakeUp(size: nat, xs: seq<Step>)
    requires IsRun(Init(size), xs)
    ensures var s := Reached(Init(size), xs);
            && (s.r == Blocked && s.buf != [] ==> s.w == Wrote || s.w == Waking)
            && s.got + s.buf == s.written
  {
    RunKeepsInv(Init(size), xs);
  }

  ghost function WriterSteps(xs: seq<Step>): nat {
    if xs == [] then 0 else (if xs[0].WriterStep? then 1 else 0) + WriterSteps(xs[1..])
  }

  /** Writer steps until the notification is delivered. */
  ghost function StepsToWake(s: State): nat {
    if s.w == Wrote then 2 else if s.w == Waking then 1 else 0
  }

  /** The reader is blocked at every point of the run. */
  ghost predicate StaysBlocked(s: State, xs: seq<Step>)
    requires IsRun(s, xs)
    decreases |xs|
  {
    s.r == Blocked && (xs != [] ==> StaysBlocked(Next(s, xs[0]), xs[1..]))
  }

  /** A reader blocked with data is on its way out: the writer is never itself waiting there, and no
      run keeps the reader blocked through two more steps of the writer. */
  lemma {:induction false} BlockedReaderIsWoken(s: State, xs: seq<Step>)
    requires Inv(s) && s.r == Blocked && s.buf != []
    requires IsRun(s, xs) && StaysBlocked(s, xs)
    ensures Enabled(s, WriterStep([]))
    ensures WriterSteps(xs) < StepsToWake(s)
    decreases |xs|
  {
    if xs != [] {
      StepKeepsInv(s, xs[0]);
      BlockedReaderIsWoken(Next(s, xs[0]), xs[1..]);
    }
  }

  // ----- what a read call does -----

  ghost function ReaderSteps(xs: seq<Step>): nat {
    if xs == [] then 0 else (if xs[0].ReaderStep? then 1 else 0) + ReaderSteps(xs[1..])
  }

  /** While the reader holds the buffer's lock nobody else touches the buffer. */
  lemma OthersWait(s: State, x: Step)
    requires Inv(s) && Enabled(s, x) && !x.ReaderStep? && (s.r == Checking || s.r == Reading)
    ensures Next(s, x).r == s.r && Next(s, x).buf == s.buf && Next(s, x).got == s.got
  {
  }

  lemma {:induction false} LastCounts(xs: seq<Step>)
    requires xs != [] && xs[|xs| - 1].ReaderStep?
    ensures ReaderSteps(xs) > 0
  {
    if |xs| > 1 { LastCounts(xs[1..]); }
  }

  /** The reader has taken as many of the oldest bytes as it asked for and as there were. */
  ghost predicate TookUpTo(s: State, e: State, len: nat) {
    var n := if len <= |s.buf| then len else |s.buf|;
    e.r == Idle && e.got == s.got + s.buf[..n] && e.buf == s.buf[n..]
  }

  lemma {:induction false} ReadingEnds(s: State, xs: seq<Step>, len: nat)
    requires Inv(s) && IsRun(s, xs) && xs != [] && xs[|xs| - 1] == ReaderStep(len)
    requires s.r == Reading && ReaderSteps(xs) == 1
    ensures TookUpTo(s, Reached(s, xs), len)
    decreases |xs|
  {
    var t := Next(s, xs[0]);
    if |xs| == 1 {
      assert Reached(s, xs) == t && xs[0] == ReaderStep(len);
    } else {
      LastCounts(xs[1..]);
      assert !xs[0].ReaderStep?;
      StepKeepsInv(s, xs[0]);
      OthersWait(s, xs[0]);
      ReadingEnds(t, xs[1..], len);
    }
  }

  /** A read that finds data takes as many of the oldest bytes as it asked for and as there are, in two
      steps of the reader and whatever the others do meanwhile. */
  lemma {:induction false} DataIsReadAtOnce(s: State, xs: seq<Step>, len: nat)
    requires Inv(s) && IsRun(s, xs) && xs != [] && xs[|xs| - 1] == ReaderStep(len)
    requires s.r == Checking && s.buf != [] && ReaderSteps(xs) == 2
    ensures TookUpTo(s, Reached(s, xs), len)
    decreases |xs|
  {
    var t := Next(s, xs[0]);
    StepKeepsInv(s, xs[0]);
    if xs[0].ReaderStep? {
      assert t == s.(r := Reading);
      ReadingEnds(t, xs[1..], len);
    } else {
      OthersWait(s, xs[0]);
      DataIsReadAtOnce(t, xs[1..], len);
    }
  }

  /** A read that finds the buffer empty goes through `sleep_on` before it reads. */
  lemma {:induction false} EmptyBufferSleeps(s: State, xs: seq<Step>) returns (i: nat)
    requires Inv(s) && IsRun(s, xs) && Reached(s, xs).r == Reading
    requires (s.r == Checking && s.buf == []) || s.r == MustSleep
    ensures i <= |xs| && IsRun(s, xs[..i]) && Reached(s, xs[..i]).r == EnteringSleep
    decreases |xs|
  {
    StepKeepsInv(s, xs[0]);
    var t := Next(s, xs[0]);
    if t.r == EnteringSleep {
      i := 1;
      assert xs[..1][1..] == [];
    } else {
      if s.r == Checking && !xs[0].ReaderStep? { OthersWait(s, xs[0]); }
      var j := EmptyBufferSleeps(t, xs[1..]);
      i := j + 1;
      assert xs[..i][0] == xs[0] && xs[..i][1..] == xs[1..][..j];
    }
  }

  /** Times the reader comes out of `sleep_on` of a live `synch_wait`. */
  ghost function Wakings(s: State, xs: seq<Step>): nat
    requires IsRun(s, xs)
    decreases |xs|
  {
    if xs == [] then 0
    else (if xs[0].ReaderStep? && s.r == LeavingSleep then 1 else 0) + Wakings(Next(s, xs[0]), xs[1..])
  }

  /** Calls of `wake_up` and `wait_exit` that have done their work, and spurious wake-ups. */
  ghost function Causes(s: State, xs: seq<Step>): nat
    requires IsRun(s, xs)
    decreases |xs|
  {
    if xs == [] then 0
    else
      (if xs[0].SpuriousWakeUp? || xs[0].Exit? || (xs[0].WriterStep? && s.w == Waking) then 1 else 0) +
      Causes(Next(s, xs[0]), xs[1..])
  }

  /** A notification not used up, or a reader on its way out. */
  ghost function Owed(s: State): nat {
    if s.wait.notified || s.r == Woken || s.r == LeavingSleep then 1 else 0
  }

  lemma {:induction false} WakingsAreOwed(s: State, xs: seq<Step>)
    requires Inv(s) && IsRun(s, xs)
    ensures Wakings(s, xs) + Owed(Reached(s, xs)) <= Owed(s) + Causes(s, xs)
    decreases |xs|
  {
    if xs != [] {
      StepKeepsInv(s, xs[0]);
      WakingsAreOwed(Next(s, xs[0]), xs[1..]);
    }
  }

  /** Every notification is used once: in every run the reader comes out of `sleep_on` at most as often as
      `wake_up` or `wait_exit` were called or the condition variable woke it spuriously. */
  lemma EveryWakingHasACause(size: nat, xs: seq<Step>)
    requires IsRun(Init(size), xs)
    ensures Wakings(Init(size), xs) <= Causes(Init(size), xs)
  {
    WakingsAreOwed(Init(size), xs);
  }
}
