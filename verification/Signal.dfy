/**
 * kernel/signal.c and the syscall exit path of kernel/sys.c for one user task:
 * queueing, choice of the next signal, frames on the user stack, rt_sigreturn,
 * the mask calls and the restart of interrupted system calls.
 *
 * A mask is the set of the signals whose bits are set; signal n is bit n - 1.
 */
module Signals {

  const SIGKILL := 9
  const SIGUSR1 := 10
  const SIGUSR2 := 12
  const SIGTERM := 15
  const SIGCHLD := 17
  const SIGCONT := 18
  const SIGSTOP := 19
  const SIGTSTP := 20
  const SIGTTIN := 21
  const SIGTTOU := 22
  const SIGURG := 23
  const SIGWINCH := 28
  const NSIG := 64

  type Mask = set<nat>

  const UNBLOCKABLE: Mask := {SIGKILL, SIGSTOP}
  const STOPS: Mask := {SIGSTOP, SIGTSTP, SIGTTIN, SIGTTOU}

  const TWO64 := 0x1_0000_0000_0000_0000
  const ERESTARTSYS := TWO64 - 512    // the negated errno as an unsigned word
  const EINTR := TWO64 - 4

  const NREGS := 33                   // struct pt_regs: x0..x30, elr_el1, spsr_el1
  const X0 := 0
  const X30 := 30
  const ELR := 31
  const FRAME_WORDS := 35             // pt_regs, user_sp, blocked
  const FRAME_SIZE := 280

  // ---------- masks as words ----------

  predicate IsMask(m: Mask) {
    forall s :: s in m ==> 1 <= s <= 64
  }

  function Value(bits: seq<bool>): nat {
    if bits == [] then 0 else (if bits[0] then 1 else 0) + 2 * Value(bits[1..])
  }

  predicate Bit(w: nat, k: nat) {
    if k == 0 then w % 2 == 1 else Bit(w / 2, k - 1)
  }

  predicate SigBit(w: nat, sig: nat)
    requires sig >= 1
  {
    Bit(w, sig - 1)
  }

  /** The word that holds a mask. */
  function Encode(m: Mask): nat {
    Value(seq(64, i => i + 1 in m))
  }

  /** The signals whose bits are set in a word. */
  function Decode(w: nat): Mask {
    set s: nat | 1 <= s <= 64 && SigBit(w, s)
  }

  lemma {:induction false} BitOfValue(bits: seq<bool>, k: nat)
    requires k < |bits|
    ensures Bit(Value(bits), k) == bits[k]
  {
    var rest := Value(bits[1..]);
    assert Value(bits) / 2 == rest && Value(bits) % 2 == if bits[0] then 1 else 0;
    if k > 0 {
      BitOfValue(bits[1..], k - 1);
    }
  }

  /** A mask written to memory reads back unchanged. */
  lemma MaskRoundTrip(m: Mask)
    requires IsMask(m)
    ensures Decode(Encode(m)) == m
  {
    var bits := seq(64, i => i + 1 in m);
    forall s: nat | 1 <= s <= 64 ensures SigBit(Encode(m), s) <==> s in m {
      BitOfValue(bits, s - 1);
    }
  }

  // ---------- frames ----------

  /** What a signal interrupts and rt_sigreturn brings back. */
  datatype Context = Context(regs: seq<nat>, sp: nat, blocked: Mask)

  /** A frame on the user stack at addr that stands for ctx. */
  datatype Frame = Frame(addr: nat, ctx: Context)

  /** User memory in words of eight bytes. */
  type Memory = map<nat, nat>

  function Word(mem: Memory, cell: nat): nat {
    if cell in mem then mem[cell] else 0
  }

  /** The registers of a frame at this cell. */
  function Words(mem: Memory, cell: nat): (r: seq<nat>)
    ensures |r| == NREGS
  {
    seq<nat>(NREGS, (i: nat) => Word(mem, cell + i))
  }

  predicate InFrame(f: Frame, cell: nat) {
    f.addr / 8 <= cell < f.addr / 8 + FRAME_WORDS
  }

  function FrameWord(f: Frame, cell: nat): nat
    requires |f.ctx.regs| == NREGS && InFrame(f, cell)
  {
    var i := cell - f.addr / 8;
    if i < NREGS then f.ctx.regs[i] else if i == NREGS then f.ctx.sp else Encode(f.ctx.blocked)
  }

  function FrameCells(f: Frame): Memory
    requires |f.ctx.regs| == NREGS
  {
    map c: nat | f.addr / 8 <= c < f.addr / 8 + FRAME_WORDS && InFrame(f, c) :: FrameWord(f, c)
  }

  /** A frame as the kernel builds it. */
  ghost predicate WellFormed(f: Frame) {
    && |f.ctx.regs| == NREGS && f.addr % 16 == 0 && f.addr + 288 == f.ctx.sp
    && IsMask(f.ctx.blocked) && f.ctx.blocked !! UNBLOCKABLE
  }

  ghost predicate FrameAt(mem: Memory, f: Frame) {
    WellFormed(f) && forall c {:trigger InFrame(f, c)} :: InFrame(f, c) ==> Word(mem, c) == FrameWord(f, c)
  }

  /** What rt_sigreturn takes from the words at sp. */
  function SavedContext(mem: Memory, sp: nat): (c: Context)
    ensures |c.regs| == NREGS && IsMask(c.blocked) && c.blocked !! UNBLOCKABLE
  {
    Context(Words(mem, sp / 8), Word(mem, sp / 8 + NREGS), Decode(Word(mem, sp / 8 + NREGS + 1)) - UNBLOCKABLE)
  }

  /** Reading an intact frame gives back its context. */
  lemma FrameReads(mem: Memory, f: Frame)
    requires FrameAt(mem, f)
    ensures SavedContext(mem, f.addr) == f.ctx
  {
    var r := Words(mem, f.addr / 8);
    forall i | 0 <= i < NREGS ensures r[i] == f.ctx.regs[i] {
      assert InFrame(f, f.addr / 8 + i);
    }
    assert r == f.ctx.regs;
    assert InFrame(f, f.addr / 8 + NREGS) && InFrame(f, f.addr / 8 + NREGS + 1);
    MaskRoundTrip(f.ctx.blocked);
  }

  /** The frames lie on the stack one under the other, above sp, and are intact. */
  ghost predicate Nested(mem: Memory, frames: seq<Frame>, sp: nat) {
    && (forall i {:trigger frames[i]} :: 0 <= i < |frames| ==> FrameAt(mem, frames[i]) && sp <= frames[i].addr)
    && (forall i, j :: 0 <= i < j < |frames| ==> frames[j].ctx.sp <= frames[i].addr)
  }

  /** The frames above sp; the ones below have been left, by rt_sigreturn or otherwise. */
  ghost function Live(frames: seq<Frame>, sp: nat): (r: seq<Frame>)
    ensures r <= frames && forall i :: 0 <= i < |r| ==> sp <= r[i].addr
    ensures (forall i :: 0 <= i < |frames| ==> sp <= frames[i].addr) ==> r == frames
  {
    if frames == [] then [] else
      var n := |frames| - 1;
      var rest := Live(frames[..n], sp);
      if |rest| == n && sp <= frames[n].addr then frames else rest
  }

  lemma LiveNested(mem: Memory, frames: seq<Frame>, sp: nat, newSp: nat)
    requires Nested(mem, frames, sp)
    ensures Nested(mem, Live(frames, newSp), newSp)
  {
    var r := Live(frames, newSp);
    assert forall i :: 0 <= i < |r| ==> r[i] == frames[i];
  }

  /** Going back to the stack pointer of the innermost context leaves exactly its frame. */
  lemma ReturnPops(mem: Memory, frames: seq<Frame>, sp: nat)
    requires Nested(mem, frames, sp) && frames != []
    ensures Live(frames, frames[|frames| - 1].ctx.sp) == frames[..|frames| - 1]
  {
    var n := |frames| - 1;
    var rest := frames[..n];
    assert FrameAt(mem, frames[n]);
    assert forall i :: 0 <= i < n ==> rest[i] == frames[i];
  }

  /** The stack pointer is at the innermost frame. */
  ghost predicate Matching(frames: seq<Frame>, sp: nat) {
    frames != [] && frames[|frames| - 1].addr == sp
  }

  /** A new frame below sp leaves the older ones intact. */
  lemma PushNested(mem: Memory, frames: seq<Frame>, f: Frame)
    requires Nested(mem, frames, f.ctx.sp) && WellFormed(f)
    ensures Nested(mem + FrameCells(f), frames + [f], f.addr)
  {
    var m, all := mem + FrameCells(f), frames + [f];
    forall i | 0 <= i < |all| ensures FrameAt(m, all[i]) && f.addr <= all[i].addr {
      if i < |frames| {
        var g := frames[i];
        assert FrameAt(mem, g) && f.ctx.sp <= g.addr;
        forall c | InFrame(g, c) ensures Word(m, c) == FrameWord(g, c) {
          assert !InFrame(f, c);
        }
      }
    }
  }

  ghost predicate Apart(frames: seq<Frame>, stores: Memory) {
    forall i, c {:trigger InFrame(frames[i], c)} :: 0 <= i < |frames| && InFrame(frames[i], c) ==> c !in stores
  }

  /** Stores outside the frames leave them intact. */
  lemma StoresNested(mem: Memory, frames: seq<Frame>, sp: nat, stores: Memory)
    requires Nested(mem, frames, sp) && Apart(frames, stores)
    ensures Nested(mem + stores, frames, sp)
  {
    forall i | 0 <= i < |frames| ensures FrameAt(mem + stores, frames[i]) {
      assert FrameAt(mem, frames[i]);
    }
  }

  /** The frames no store touches, up to the first one that is touched. */
  ghost function Untouched(frames: seq<Frame>, stores: Memory): (r: seq<Frame>)
    ensures r <= frames && Apart(r, stores) && (Apart(frames, stores) ==> r == frames)
  {
    if frames == [] then [] else
      var n := |frames| - 1;
      var rest := Untouched(frames[..n], stores);
      assert Apart(frames, stores) ==> Apart(frames[..n], stores) by {
        assert forall i :: 0 <= i < n ==> frames[..n][i] == frames[i];
      }
      if Apart(frames, stores) then frames else rest
  }

  lemma PrefixNested(mem: Memory, frames: seq<Frame>, sp: nat, n: nat)
    requires Nested(mem, frames, sp) && n <= |frames|
    ensures Nested(mem, frames[..n], sp)
  {
    assert forall i :: 0 <= i < n ==> frames[..n][i] == frames[i];
  }

  /** What rt_sigreturn leaves on the stack, whatever it finds there. */
  lemma ReturnNested(mem: Memory, frames: seq<Frame>, sp: nat)
    requires Nested(mem, frames, sp)
    ensures Nested(mem, Live(frames, SavedContext(mem, sp).sp), SavedContext(mem, sp).sp)
    ensures Matching(frames, sp) ==> SavedContext(mem, sp) == frames[|frames| - 1].ctx
    ensures Matching(frames, sp) ==> Live(frames, SavedContext(mem, sp).sp) == frames[..|frames| - 1]
  {
    LiveNested(mem, frames, sp, SavedContext(mem, sp).sp);
    if Matching(frames, sp) {
      FrameReads(mem, frames[|frames| - 1]);
      ReturnPops(mem, frames, sp);
    }
  }

  /** What lies at sp is the innermost frame, and returning through it leaves the others. */
  ghost predicate MatchFound(mem: Memory, frames: seq<Frame>, sp: nat)
    requires frames != []
  {
    var c := SavedContext(mem, sp);
    c == frames[|frames| - 1].ctx && Live(frames, c.sp) == frames[..|frames| - 1]
  }

  /** What user code leaves of the frames. */
  lemma ComputeNested(mem: Memory, frames: seq<Frame>, sp: nat, p: nat, stores: Memory)
    requires Nested(mem, frames, sp)
    ensures Nested(mem + stores, Live(Untouched(frames, stores), p), p)
  {
    var kept := Untouched(frames, stores);
    PrefixNested(mem, frames, sp, |kept|);
    StoresNested(mem, kept, sp, stores);
    LiveNested(mem + stores, kept, sp, p);
  }

  // ---------- pending signals ----------

  /** Stop signals and SIGCONT are never pending together. */
  ghost predicate PendingOk(pending: Mask) {
    && (forall s :: s in pending ==> 1 <= s < NSIG)
    && (SIGCONT in pending ==> pending !! STOPS)
  }

  /** The pending set once a signal is queued: stop signals and SIGCONT cancel each other. */
  function Queued(pending: Mask, sig: int): Mask {
    if !(1 <= sig < NSIG) then pending
    else if sig == SIGCONT then pending + {SIGCONT} - STOPS
    else if sig in STOPS then pending + {sig as nat} - {SIGCONT}
    else pending + {sig as nat}
  }

  function Ready(pending: Mask, blocked: Mask): Mask {
    pending - (blocked - UNBLOCKABLE)
  }

  /** The pending set once all of these are queued in order. */
  function QueuedAll(pending: Mask, arrivals: seq<int>): Mask {
    if arrivals == [] then pending
    else Queued(QueuedAll(pending, arrivals[..|arrivals| - 1]), arrivals[|arrivals| - 1])
  }

  /** The first ready signal from sig on, 0 when there is none. */
  function LowestFrom(ready: Mask, sig: nat): (r: nat)
    requires sig > 0
    ensures r != 0 ==> r in ready && sig <= r < NSIG && forall s | s in ready && sig <= s :: r <= s
    ensures r == 0 ==> forall s | s in ready :: s < sig || s >= NSIG
    decreases NSIG - sig
  {
    if sig >= NSIG then 0 else if sig in ready then sig else LowestFrom(ready, sig + 1)
  }

  /** The signal do_signal takes next: SIGKILL, then SIGSTOP, then the lowest; 0 when no signal is ready. */
  function Pick(pending: Mask, blocked: Mask): (r: nat)
    ensures r != 0 ==> r in Ready(pending, blocked)
  {
    var ready := Ready(pending, blocked);
    if SIGKILL in ready then SIGKILL else if SIGSTOP in ready then SIGSTOP else LowestFrom(ready, 1)
  }

  /** next_pending_signal. */
  method NextPending(pending: Mask, blocked: Mask) returns (sig: nat)
    requires PendingOk(pending)
    ensures sig == Pick(pending, blocked) && (sig == 0 <==> Ready(pending, blocked) == {})
    ensures SIGKILL in pending ==> sig == SIGKILL
    ensures SIGKILL !in pending && SIGSTOP in pending ==> sig == SIGSTOP
    ensures SIGKILL !in pending && SIGSTOP !in pending ==> forall s :: s in Ready(pending, blocked) ==> sig <= s
  {
    var ready := Ready(pending, blocked);
    if SIGKILL in ready {
      return SIGKILL;
    }
    if SIGSTOP in ready {
      return SIGSTOP;
    }
    sig := 1;
    while sig < NSIG
      invariant 1 <= sig <= NSIG && LowestFrom(ready, 1) == LowestFrom(ready, sig)
    {
      if sig in ready {
        return;
      }
      sig := sig + 1;
    }
    sig := 0;
  }

  // ---------- system calls ----------

  const EFAULT := TWO64 - 14
  const EINVAL := TWO64 - 22
  const SIGSET_SIZE := 8              // sizeof(sigset_t)

  /**
   * A system call as far as signals go. Masks come from user memory as words, has tells whether the
   * pointer to the argument is not NULL and size is the sigsetsize argument; arrivals are the
   * signals queued while the task sleeps; ret is the result of any other call.
   */
  datatype Call =
    | Plain(ret: nat)
    | Procmask(how: int, has: bool, word: nat, size: nat)
    | Suspend(has: bool, word: nat, size: nat, arrivals: seq<int>)
    | SetAction(sig: int, has: bool, act: Action, maskWord: nat, size: nat)
    | Pending(has: bool, size: nat)
    | SigReturn

  /** What a call copies to its result buffer, if it is given one. */
  datatype Reply = NoReply | MaskReply(mask: Mask) | ActionReply(act: Action)

  datatype Handler = Dfl | Ign | User(entry: nat)

  datatype Action = Action(handler: Handler, restart: bool, nodefer: bool, resethand: bool, restorer: nat, mask: Mask)

  function DefaultAction(sig: nat): Action {
    Action(Dfl, false, false, false, 0, {})
  }

  /**
   * How a system call ended: with a return, after setting up a handler, or never. NoFrame and BadFrame are the
   * deaths by SIGSEGV for want of a frame to push or to return through; Asleep is a sigsuspend that goes on.
   */
  datatype Delivery =
    | NoSignal
    | Caught(sig: nat, ka: Action)
    | Died(sig: nat)
    | NoFrame(sig: nat)
    | Parked(sig: nat)
    | PowerOff(sig: nat)
    | BadFrame
    | Asleep

  datatype Fate = Kills | Stops | Ignored | ShutsDown | Handled

  /** What a signal does to a task; SIGKILL and SIGSTOP cannot be changed. */
  function FateOf(h: Handler, pid: nat, sig: nat): Fate {
    if sig == SIGKILL then Kills
    else if sig == SIGSTOP then Stops
    else match h
      case Ign => Ignored
      case User(_) => Handled
      case Dfl =>
        if sig in STOPS then Stops
        else if pid == 1 && sig in {SIGUSR1, SIGUSR2, SIGTERM} then ShutsDown
        else if sig in {SIGCHLD, SIGCONT, SIGURG, SIGWINCH} then Ignored
        else Kills
  }

  /** The actions once a signal is caught: SA_RESETHAND is for one signal only. */
  function TableAfter(d: Delivery, table: map<nat, Action>): map<nat, Action> {
    if d.Caught? && d.ka.resethand then table[d.sig := d.ka.(handler := Dfl)] else table
  }

  /** A delivery to a handler, of a signal there is. */
  predicate Sane(d: Delivery) {
    d.Caught? && d.ka.handler.User? && 1 <= d.sig < NSIG
  }

  /** A frame for this handler fits below sp. */
  predicate FrameFits(ka: Action, sp: nat, fits: nat -> bool) {
    ka.restorer != 0 && sp >= 288 && sp % 16 == 0 && FrameOk(sp - 288, fits)
  }

  /** signal_frame_ok; fits says whether the frame lies in a writable area or in the stack window. */
  predicate FrameOk(sp: nat, fits: nat -> bool) {
    sp != 0 && sp % 16 == 0 && sp <= TWO64 - 1 - FRAME_SIZE && fits(sp)
  }

  /** The signals whose action can be changed. */
  predicate Settable(sig: int) {
    1 <= sig < NSIG && sig != SIGKILL && sig != SIGSTOP
  }

  /** The mask rt_sigprocmask sets. */
  function NewMask(how: int, old_: Mask, given: Mask): Mask {
    match how
    case 0 => old_ + (given - UNBLOCKABLE)
    case 1 => old_ - (given - UNBLOCKABLE)
    case _ => given - UNBLOCKABLE
  }

  /** The mask the caller of a system call has once the call is over. */
  function MaskAfter(call: Call, blocked: Mask): Mask {
    if call.Procmask? && call.size == SIGSET_SIZE && call.has && 0 <= call.how <= 2
    then NewMask(call.how, blocked, Decode(call.word)) else blocked
  }

  /** A sigsuspend that gets as far as sleeping. */
  predicate Suspends(call: Call) {
    call.Suspend? && call.size == SIGSET_SIZE && call.has
  }

  /** The results of the signal calls that do not sleep. */
  function CallResult(call: Call): nat
    requires call.Procmask? || call.Suspend? || call.SetAction? || call.Pending?
  {
    if call.size != SIGSET_SIZE then EINVAL
    else match call
      case Procmask(how, has, _, _) => if has && !(0 <= how <= 2) then EINVAL else 0
      case Suspend(has, _, _, _) => if has then EINTR else EFAULT
      case SetAction(sig, _, _, _, _) => if Settable(sig) then 0 else EINVAL
      case Pending(has, _) => if has then 0 else EFAULT
  }

  /** The mask in force when the call looks for signals. */
  function MaskDuring(call: Call, blocked: Mask): Mask {
    if Suspends(call) then Decode(call.word) - UNBLOCKABLE else MaskAfter(call, blocked)
  }

  /** apply_syscall_restart on registers that hold the result of the call in x0. */
  function Restarted(regs: seq<nat>, inSyscall: bool, origX0: nat, restart: bool): (r: seq<nat>)
    requires |regs| == NREGS
    ensures |r| == NREGS
  {
    if !inSyscall || regs[X0] != ERESTARTSYS then regs
    else if restart then regs[X0 := origX0][ELR := (regs[ELR] + TWO64 - 4) % TWO64]
    else regs[X0 := EINTR]
  }

  /**
   * What a system call should leave in the registers it was made with: its result; or, when it
   * was interrupted, the same call again (one instruction back), or the error EINTR.
   */
  function Final(regs: seq<nat>, ret: nat, restart: bool): (r: seq<nat>)
    requires |regs| == NREGS
    ensures |r| == NREGS
  {
    if ret != ERESTARTSYS then regs[X0 := ret]
    else if restart then regs[ELR := (regs[ELR] + TWO64 - 4) % TWO64]
    else regs[X0 := EINTR]
  }

  lemma RestartedFinal(regs: seq<nat>, ret: nat, restart: bool)
    requires |regs| == NREGS
    ensures Restarted(regs[X0 := ret], true, regs[X0], restart) == Final(regs, ret, restart)
  {
  }

  /** The internal code reaches the user only as the argument of a call that is made again. */
  lemma RestartInvisible(regs: seq<nat>, ret: nat, restart: bool)
    requires |regs| == NREGS && regs[ELR] < TWO64
    ensures Final(regs, ret, restart)[X0] == ERESTARTSYS ==>
              regs[X0] == ERESTARTSYS && Final(regs, ret, restart)[ELR] != regs[ELR]
    ensures Final(regs, ret, restart)[ELR] != regs[ELR] <==> ret == ERESTARTSYS && restart
    ensures ret == ERESTARTSYS && restart && regs[ELR] >= 4 ==> Final(regs, ret, restart) == regs[ELR := regs[ELR] - 4]
  {
    var back := (regs[ELR] + TWO64 - 4) % TWO64;
    assert back == if regs[ELR] >= 4 then regs[ELR] - 4 else regs[ELR] + TWO64 - 4;
  }

  /** Registers on entry to a handler. */
  function HandlerEntry(regs: seq<nat>, sig: nat, ka: Action): seq<nat>
    requires |regs| == NREGS && ka.handler.User?
  {
    regs[X0 := sig][X30 := ka.restorer][ELR := ka.handler.entry]
  }

  /** The mask a handler runs under. */
  function HandlerMask(blocked: Mask, sig: nat, ka: Action): Mask {
    blocked + ka.mask + (if ka.nodefer then {} else {sig}) - UNBLOCKABLE
  }

  // ---------- do_signal as a function ----------

  datatype Ended = Ended(d: Delivery, pending: Mask)

  function ActionOf(table: map<nat, Action>, sig: nat): Action {
    if sig in table then table[sig] else DefaultAction(sig)
  }

  /** A stop ends when SIGCONT or SIGKILL arrives. */
  predicate Wakes(arrivals: seq<int>) {
    SIGCONT in arrivals || SIGKILL in arrivals
  }

  /**
   * How do_signal ends and what is still pending then: signals are taken one by one until one of them decides.
   * during lists, for each stop of the task, the signals that arrive while it lasts.
   */
  function Signalled(pending: Mask, blocked: Mask, table: map<nat, Action>, pid: nat, sp: nat, fits: nat -> bool,
                     during: seq<seq<int>>): Ended
    decreases |during|, |pending|, 0
  {
    var sig := Pick(pending, blocked);
    if sig == 0 then Ended(NoSignal, pending)
    else Decide(sig, pending - {sig}, blocked, table, pid, sp, fits, during)
  }

  /** What signal sig does, with rest still pending. */
  function Decide(sig: nat, rest: Mask, blocked: Mask, table: map<nat, Action>, pid: nat, sp: nat, fits: nat -> bool,
                  during: seq<seq<int>>): Ended
    decreases |during|, |rest|, 1
  {
    var ka := ActionOf(table, sig);
    match FateOf(ka.handler, pid, sig)
    case Kills => Ended(Died(sig), rest)
    case ShutsDown => Ended(PowerOff(sig), rest)
    case Handled => Ended(if FrameFits(ka, sp, fits) then Caught(sig, ka) else NoFrame(sig), rest)
    case Ignored => Signalled(rest, blocked, table, pid, sp, fits, during)
    case Stops =>
      if during == [] then Ended(Parked(sig), rest)
      else if !Wakes(during[0]) then Ended(Parked(sig), QueuedAll(rest, during[0]))
      else Signalled(QueuedAll(rest, during[0]), blocked, table, pid, sp, fits, during[1..])
  }

  /** The signal was pending or arrived during a stop, and it is not blocked. */
  ghost predicate Came(sig: nat, pending: Mask, blocked: Mask, during: seq<seq<int>>) {
    && (sig in pending || exists i | 0 <= i < |during| :: sig in during[i])
    && sig !in blocked - UNBLOCKABLE
  }

  /** Why do_signal ended the way it did. */
  ghost predicate Justified(end: Ended, pending: Mask, blocked: Mask, table: map<nat, Action>, pid: nat, sp: nat,
                            fits: nat -> bool, during: seq<seq<int>>) {
    match end.d
    case NoSignal => Ready(end.pending, blocked) == {}
    case Caught(sig, ka) =>
      && Came(sig, pending, blocked, during) && sig !in end.pending && ka == ActionOf(table, sig)
      && FateOf(ka.handler, pid, sig) == Handled && FrameFits(ka, sp, fits)
    case NoFrame(sig) =>
      && Came(sig, pending, blocked, during) && sig !in end.pending
      && FateOf(ActionOf(table, sig).handler, pid, sig) == Handled && !FrameFits(ActionOf(table, sig), sp, fits)
    case Died(sig) =>
      && Came(sig, pending, blocked, during) && sig !in end.pending
      && FateOf(ActionOf(table, sig).handler, pid, sig) == Kills
    case PowerOff(sig) =>
      && Came(sig, pending, blocked, during) && sig !in end.pending
      && FateOf(ActionOf(table, sig).handler, pid, sig) == ShutsDown
    case Parked(sig) => Came(sig, pending, blocked, during) && FateOf(ActionOf(table, sig).handler, pid, sig) == Stops
    case _ => false
  }

  lemma {:induction false} QueuedIn(pending: Mask, arrivals: seq<int>, s: nat)
    requires s in QueuedAll(pending, arrivals)
    ensures s in pending || s in arrivals
  {
    if arrivals != [] && s in QueuedAll(pending, arrivals[..|arrivals| - 1]) {
      QueuedIn(pending, arrivals[..|arrivals| - 1], s);
    }
  }

  lemma {:induction false} QueuedOk(pending: Mask, arrivals: seq<int>)
    requires PendingOk(pending)
    ensures PendingOk(QueuedAll(pending, arrivals))
  {
    if arrivals != [] {
      QueuedOk(pending, arrivals[..|arrivals| - 1]);
    }
  }

  /** What came after the first stop came before. */
  lemma CameBefore(sig: nat, pending: Mask, rest: Mask, blocked: Mask, during: seq<seq<int>>)
    requires during != [] && rest <= pending && Came(sig, QueuedAll(rest, during[0]), blocked, during[1..])
    ensures Came(sig, pending, blocked, during)
  {
    if sig in QueuedAll(rest, during[0]) {
      QueuedIn(rest, during[0], sig);
      assert sig in pending || sig in during[0];
    } else {
      var i :| 0 <= i < |during[1..]| && sig in during[1..][i];
      assert during[i + 1] == during[1..][i];
    }
  }

  lemma JustifiedMore(end: Ended, after: Mask, later: seq<seq<int>>, pending: Mask, blocked: Mask,
                      table: map<nat, Action>, pid: nat, sp: nat, fits: nat -> bool, during: seq<seq<int>>)
    requires Justified(end, after, blocked, table, pid, sp, fits, later)
    requires forall s {:trigger Came(s, after, blocked, later)} | Came(s, after, blocked, later) ::
               Came(s, pending, blocked, during)
    ensures Justified(end, pending, blocked, table, pid, sp, fits, during)
  {
  }

  /** do_signal ends with a signal that came, that is not blocked, and whose action is just this. */
  lemma {:induction false} SignalledJustified(pending: Mask, blocked: Mask, table: map<nat, Action>, pid: nat, sp: nat,
                                              fits: nat -> bool, during: seq<seq<int>>)
    requires PendingOk(pending)
    ensures Justified(Signalled(pending, blocked, table, pid, sp, fits, during), pending, blocked, table, pid, sp, fits,
                      during)
    decreases |during|, |pending|, 1
  {
    var sig := Pick(pending, blocked);
    if sig == 0 {
      assert Ready(pending, blocked) == {};
    } else {
      var rest, fate := pending - {sig}, FateOf(ActionOf(table, sig).handler, pid, sig);
      assert Came(sig, pending, blocked, during);
      var end := Signalled(pending, blocked, table, pid, sp, fits, during);
      assert end == Decide(sig, rest, blocked, table, pid, sp, fits, during);
      if fate == Ignored {
        JustifiedRest(sig, pending, blocked, table, pid, sp, fits, during);
      } else if fate == Stops && during != [] && Wakes(during[0]) {
        JustifiedLater(sig, pending, blocked, table, pid, sp, fits, during);
      }
    }
  }

  /** After a signal that is ignored. */
  lemma JustifiedRest(sig: nat, pending: Mask, blocked: Mask, table: map<nat, Action>, pid: nat, sp: nat,
                      fits: nat -> bool, during: seq<seq<int>>)
    requires PendingOk(pending) && sig in pending
    ensures Justified(Signalled(pending - {sig}, blocked, table, pid, sp, fits, during), pending, blocked, table, pid,
                      sp, fits, during)
    decreases |during|, |pending|, 0
  {
    var rest := pending - {sig};
    SignalledJustified(rest, blocked, table, pid, sp, fits, during);
    JustifiedMore(Signalled(rest, blocked, table, pid, sp, fits, during), rest, during, pending, blocked, table, pid,
                  sp, fits, during);
  }

  /** After a stop that ends. */
  lemma JustifiedLater(sig: nat, pending: Mask, blocked: Mask, table: map<nat, Action>, pid: nat, sp: nat,
                       fits: nat -> bool, during: seq<seq<int>>)
    requires PendingOk(pending) && sig in pending && during != []
    ensures var after := QueuedAll(pending - {sig}, during[0]);
            Justified(Signalled(after, blocked, table, pid, sp, fits, during[1..]), pending, blocked, table, pid, sp,
                      fits, during)
    decreases |during|, |pending|, 0
  {
    var rest := pending - {sig};
    var after := QueuedAll(rest, during[0]);
    QueuedOk(rest, during[0]);
    SignalledJustified(after, blocked, table, pid, sp, fits, during[1..]);
    forall s | Came(s, after, blocked, during[1..]) ensures Came(s, pending, blocked, during) {
      CameBefore(s, pending, rest, blocked, during);
    }
    JustifiedMore(Signalled(after, blocked, table, pid, sp, fits, during[1..]), after, during[1..], pending, blocked,
                  table, pid, sp, fits, during);
  }

  /** A signal stops being pending because it took effect, or because a stop or SIGCONT cancelled it. */
  ghost predicate Spent(d: Delivery, s: nat, table: map<nat, Action>, pid: nat, stopped: bool) {
    || (d.Caught? && s == d.sig) || (d.Died? && s == d.sig) || (d.NoFrame? && s == d.sig)
    || (d.Parked? && s == d.sig) || (d.PowerOff? && s == d.sig)
    || FateOf(ActionOf(table, s).handler, pid, s) in {Stops, Ignored}
    || (stopped && (s in STOPS || s == SIGCONT))
  }

  lemma {:induction false} QueuedKeeps(pending: Mask, arrivals: seq<int>, s: nat)
    requires s in pending && s !in STOPS && s != SIGCONT
    ensures s in QueuedAll(pending, arrivals)
  {
    if arrivals != [] {
      QueuedKeeps(pending, arrivals[..|arrivals| - 1], s);
    }
  }

  lemma {:induction false} SignalledSpends(pending: Mask, blocked: Mask, table: map<nat, Action>, pid: nat, sp: nat,
                                           fits: nat -> bool, during: seq<seq<int>>, s: nat)
    requires s in pending
    ensures var end := Signalled(pending, blocked, table, pid, sp, fits, during);
            s !in end.pending ==> Spent(end.d, s, table, pid, during != [])
    decreases |during|, |pending|
  {
    var sig := Pick(pending, blocked);
    if sig != 0 && s != sig {
      var rest, fate := pending - {sig}, FateOf(ActionOf(table, sig).handler, pid, sig);
      if fate == Ignored {
        SignalledSpends(rest, blocked, table, pid, sp, fits, during, s);
      } else if fate == Stops && during != [] && s !in STOPS && s != SIGCONT {
        QueuedKeeps(rest, during[0], s);
        if Wakes(during[0]) {
          SignalledSpends(QueuedAll(rest, during[0]), blocked, table, pid, sp, fits, during[1..], s);
        }
      }
    }
  }

  // ---------- what a call does before it looks for signals ----------

  /** The pending set when rt_sigsuspend stops waiting: signals are queued until one is ready. */
  function Slept(pending: Mask, blocked: Mask, arrivals: seq<int>): Mask
    decreases |arrivals|
  {
    if Ready(pending, blocked) != {} || arrivals == [] then pending
    else Slept(Queued(pending, arrivals[0]), blocked, arrivals[1..])
  }

  function CallPending(call: Call, pending: Mask, blocked: Mask): Mask {
    if Suspends(call) then Slept(pending, MaskDuring(call, blocked), call.arrivals) else pending
  }

  function CallTable(call: Call, table: map<nat, Action>): map<nat, Action> {
    if call.SetAction? && call.size == SIGSET_SIZE && Settable(call.sig) && call.has
    then table[call.sig as nat := call.act.(mask := Decode(call.maskWord) - UNBLOCKABLE)] else table
  }

  function CallReturns(call: Call): nat
    requires !call.SigReturn?
  {
    if call.Plain? then call.ret else CallResult(call)
  }

  datatype Event =
    | Computes(regs: seq<nat>, sp: nat, stores: Memory)
    | Arrives(sig: int)
    | Enters(call: Call, fits: nat -> bool, during: seq<seq<int>>)

  // ---------- runs ----------

  /** What a run can be followed by: user context and memory, the frames there, and the signal state. */
  datatype Snap = Snap(now: Context, mem: Memory, frames: seq<Frame>, pending: Mask, actions: map<nat, Action>)

  /** A handler has been entered; its frame, on top of the outer ones, holds context c. */
  ghost predicate Interrupts(sig: nat, ka: Action, c: Context, mask: Mask, mem: Memory, outer: seq<Frame>, b: Snap) {
    && |c.regs| == NREGS && ka.handler.User? && b.now.sp + 288 == c.sp
    && b.now.regs == HandlerEntry(c.regs, sig, ka) && b.now.blocked == HandlerMask(mask, sig, ka)
    && b.frames == outer + [Frame(b.now.sp, c)] && b.mem == mem + FrameCells(Frame(b.now.sp, c))
  }

  /** What a system call that returned ret leaves to the code that made it. */
  ghost function Resumption(call: Call, ret: nat, restart: bool, now: Context): Context
    requires |now.regs| == NREGS
  {
    Context(Final(now.regs, ret, restart), now.sp, MaskAfter(call, now.blocked))
  }

  /** How a call ends for a task in state a. */
  ghost function CallEnd(pid: nat, call: Call, fits: nat -> bool, during: seq<seq<int>>, a: Snap): Ended {
    var pend, mask := CallPending(call, a.pending, a.now.blocked), MaskDuring(call, a.now.blocked);
    if Suspends(call) && Ready(pend, mask) == {} then Ended(Asleep, pend)
    else Signalled(pend, mask, CallTable(call, a.actions), pid, a.now.sp, fits, during)
  }

  ghost predicate CallStep(pid: nat, call: Call, fits: nat -> bool, during: seq<seq<int>>, d: Delivery, ret: nat,
                           a: Snap, b: Snap)
    requires |a.now.regs| == NREGS && !call.SigReturn?
  {
    && ret == CallReturns(call) && Ended(d, b.pending) == CallEnd(pid, call, fits, during, a)
    && match d
       case NoSignal =>
         && b.now == Resumption(call, ret, true, a.now) && b.frames == a.frames && b.mem == a.mem
         && b.actions == CallTable(call, a.actions)
       case Caught(sig, ka) =>
         && Interrupts(sig, ka, Resumption(call, ret, ka.restart, a.now), MaskDuring(call, a.now.blocked), a.mem,
                       a.frames, b)
         && b.actions == TableAfter(d, CallTable(call, a.actions))
       case _ => true
  }

  /** How rt_sigreturn ends: with what it finds at the stack pointer for the context. */
  ghost function ReturnEnd(pid: nat, fits: nat -> bool, during: seq<seq<int>>, a: Snap): Ended {
    var c := SavedContext(a.mem, a.now.sp);
    if !FrameOk(a.now.sp, fits) then Ended(BadFrame, a.pending)
    else Signalled(a.pending, c.blocked, a.actions, pid, c.sp, fits, during)
  }

  ghost predicate ReturnStep(pid: nat, fits: nat -> bool, during: seq<seq<int>>, d: Delivery, a: Snap, b: Snap) {
    var n, c := |a.frames| - 1, SavedContext(a.mem, a.now.sp);
    && Ended(d, b.pending) == ReturnEnd(pid, fits, during, a)
    && (Matching(a.frames, a.now.sp) ==> c == a.frames[n].ctx && Live(a.frames, c.sp) == a.frames[..n])
    && match d
       case NoSignal => b == Snap(c, a.mem, Live(a.frames, c.sp), b.pending, a.actions)
       case Caught(sig, ka) =>
         Interrupts(sig, ka, c, c.blocked, a.mem, Live(a.frames, c.sp), b) && b.actions == TableAfter(d, a.actions)
       case _ => true
  }

  /** One event; what becomes of a task that does not survive it is its last pending set only. */
  ghost predicate Step(pid: nat, e: Event, d: Delivery, ret: nat, a: Snap, b: Snap) {
    match e
    case Arrives(sig) => d == NoSignal && b == a.(pending := Queued(a.pending, sig))
    case Computes(r, p, stores) =>
      && d == NoSignal
      && b == a.(now := Context(r, p, a.now.blocked), mem := a.mem + stores,
                 frames := Live(Untouched(a.frames, stores), p))
    case Enters(call, fits, during) =>
      && |a.now.regs| == NREGS
      && if call.SigReturn? then ReturnStep(pid, fits, during, d, a, b)
         else CallStep(pid, call, fits, during, d, ret, a, b)
  }

  /** User code goes on. */
  predicate Survives(d: Delivery) {
    d.NoSignal? || d.Caught?
  }

  /** The states of a run over the first events, with how each ended and what each call returned. */
  ghost predicate IsRun(pid: nat, states: seq<Snap>, events: seq<Event>, outs: seq<(Delivery, nat)>) {
    && |states| == |outs| + 1 && |outs| <= |events|
    && forall i {:trigger StepAt(pid, states, events, outs, i)} ::
         0 <= i < |outs| ==> StepAt(pid, states, events, outs, i) && Survives(outs[i].0)
  }

  ghost predicate StepAt(pid: nat, states: seq<Snap>, events: seq<Event>, outs: seq<(Delivery, nat)>, i: nat)
    requires i < |outs| && |states| == |outs| + 1 && |outs| <= |events|
  {
    Step(pid, events[i], outs[i].0, outs[i].1, states[i], states[i + 1])
  }

  /** User code that leaves the frames alone and stays below them, and returns only to the innermost one. */
  ghost predicate Polite(e: Event, a: Snap) {
    match e
    case Arrives(_) => true
    case Computes(_, p, stores) =>
      Apart(a.frames, stores) && forall i :: 0 <= i < |a.frames| ==> p <= a.frames[i].addr
    case Enters(call, _, _) => call.SigReturn? ==> Matching(a.frames, a.now.sp)
  }

  /** Frame n is still there for context c, with the same frames outside it. */
  ghost predicate Holds(s: Snap, outer: seq<Frame>, c: Context) {
    |s.frames| > |outer| && s.frames[..|outer|] == outer && s.frames[|outer|].ctx == c
  }

  /**
   * A polite step keeps the frame while the depth does not fall below it, even when it is returned through and
   * re-entered.
   */
  lemma PoliteKeeps(pid: nat, e: Event, d: Delivery, ret: nat, a: Snap, b: Snap, outer: seq<Frame>, c: Context)
    requires Step(pid, e, d, ret, a, b) && Survives(d) && Polite(e, a) && Holds(a, outer, c) && |b.frames| > |outer|
    ensures Holds(b, outer, c)
  {
    var n := |outer|;
    if e.Enters? && e.call.SigReturn? {
      assert b.frames[..n] == a.frames[..n];
    } else if e.Enters? && d.Caught? {
      assert b.frames[..n] == a.frames[..n];
    }
  }

  lemma {:induction false} StillHeld(pid: nat, states: seq<Snap>, events: seq<Event>, outs: seq<(Delivery, nat)>,
                                     i: nat, j: nat, outer: seq<Frame>, c: Context)
    requires IsRun(pid, states, events, outs) && i <= j <= |outs| && Holds(states[i], outer, c)
    requires forall k :: i <= k < j ==> Polite(events[k], states[k])
    requires forall k :: i <= k <= j ==> |states[k].frames| > |outer|
    ensures Holds(states[j], outer, c)
    decreases j
  {
    if i < j {
      StillHeld(pid, states, events, outs, i, j - 1, outer, c);
      assert StepAt(pid, states, events, outs, j - 1);
      PoliteKeeps(pid, events[j - 1], outs[j - 1].0, outs[j - 1].1, states[j - 1], states[j], outer, c);
    }
  }

  /** The context a delivery interrupts. */
  ghost function InterruptedBy(e: Event, out: (Delivery, nat), a: Snap): Context
    requires e.Enters? && out.0.Caught? && |a.now.regs| == NREGS && (e.call.SigReturn? ==> a.frames != [])
  {
    if e.call.SigReturn? then a.frames[|a.frames| - 1].ctx else Resumption(e.call, out.1, out.0.ka.restart, a.now)
  }

  /** The frames outside the one a delivery pushes. */
  ghost function Outer(e: Event, a: Snap): seq<Frame>
    requires e.Enters? && (e.call.SigReturn? ==> a.frames != [])
  {
    if e.call.SigReturn? then a.frames[..|a.frames| - 1] else a.frames
  }

  /**
   * Frames nest: whatever happens between a delivery and the return that takes the stack back to where it
   * was, that return gives back the interrupted registers, stack pointer and mask, and the frames outside.
   */
  lemma Nesting(pid: nat, states: seq<Snap>, events: seq<Event>, outs: seq<(Delivery, nat)>, i: nat, j: nat)
    requires IsRun(pid, states, events, outs) && i < j < |outs| && outs[i].0.Caught? && outs[j].0.NoSignal?
    requires events[i].Enters? && events[j].Enters? && events[j].call.SigReturn?
    requires forall k :: i <= k <= j ==> Polite(events[k], states[k])
    requires forall k :: i < k <= j ==> |states[k].frames| >= |states[i + 1].frames|
    requires |states[j].frames| == |states[i + 1].frames|
    ensures |states[i].now.regs| == NREGS && (events[i].call.SigReturn? ==> states[i].frames != [])
    ensures states[j + 1].now == InterruptedBy(events[i], outs[i], states[i])
    ensures states[j + 1].frames == Outer(events[i], states[i])
  {
    assert StepAt(pid, states, events, outs, i) && StepAt(pid, states, events, outs, j);
    assert Polite(events[i], states[i]) && Polite(events[j], states[j]);
    var c, outer := InterruptedBy(events[i], outs[i], states[i]), Outer(events[i], states[i]);
    assert Holds(states[i + 1], outer, c);
    StillHeld(pid, states, events, outs, i + 1, j, outer, c);
  }

  class Task {
    var regs: seq<nat>
    var sp: nat
    var mem: Memory
    var pending: Mask
    var blocked: Mask
    var savedBlocked: Mask
    var restoreSigmask: bool
    var inSyscall: bool
    var origX0: nat
    var actions: map<nat, Action>
    const pid: nat
    ghost var frames: seq<Frame>        // the frames still on the stack, innermost last

    /** What holds inside the kernel as well. */
    ghost predicate Inv()
      reads this
    {
      && |regs| == NREGS
      && IsMask(blocked) && blocked !! UNBLOCKABLE && IsMask(savedBlocked) && savedBlocked !! UNBLOCKABLE
      && PendingOk(pending)
      && (forall s :: 1 <= s < NSIG ==> s in actions && IsMask(actions[s].mask))
      && Nested(mem, frames, sp)
    }

    /** What holds whenever user code runs. */
    ghost predicate Valid()
      reads this
    {
      Inv() && !inSyscall && !restoreSigmask
    }

    ghost function Now(): Context
      reads this
    {
      Context(regs, sp, blocked)
    }

    /** The mask to come back to: inside rt_sigsuspend, the one from before the call. */
    function Interrupted(): Mask
      reads this
    {
      if restoreSigmask then savedBlocked else blocked
    }

    /** A task with no handler installed and nothing pending. */
    constructor (regs: seq<nat>, sp: nat, mem: Memory, pid: nat)
      requires |regs| == NREGS
      ensures Valid() && frames == [] && Now() == Context(regs, sp, {}) && pending == {}
    {
      this.regs, this.sp, this.mem, this.pid := regs, sp, mem, pid;
      pending, blocked, savedBlocked, restoreSigmask, inSyscall, origX0 := {}, {}, {}, false, false, 0;
      actions := map s: nat | 1 <= s < NSIG :: DefaultAction(s);
      frames := [];
    }

    /** signal_queue. */
    method Queue(sig: int)
      requires Inv()
      modifies this`pending
      ensures Inv() && pending == Queued(old(pending), sig)
    {
      if !(1 <= sig < NSIG) {
        return;
      }
      pending := pending + {sig};
      if sig == SIGCONT {
        pending := pending - STOPS;
      } else if sig in STOPS {
        pending := pending - {SIGCONT};
      }
    }

    /** setup_signal_frame. */
    method SetupFrame(sig: nat, ka: Action, oldBlocked: Mask, fits: nat -> bool) returns (ok: bool)
      requires Inv() && ka.handler.User? && IsMask(oldBlocked) && oldBlocked !! UNBLOCKABLE
      modifies this`regs, this`sp, this`mem, this`frames
      ensures Inv()
      ensures ok <==> FrameFits(ka, old(sp), fits)
      ensures ok ==> sp == old(sp) - 288 && regs == HandlerEntry(old(regs), sig, ka)
      ensures ok ==> frames == old(frames) + [Frame(sp, Context(old(regs), old(sp), oldBlocked))]
      ensures ok ==> mem == old(mem) + FrameCells(Frame(sp, Context(old(regs), old(sp), oldBlocked)))
      ensures !ok ==> Now() == old(Now()) && frames == old(frames)
    {
      if ka.restorer == 0 {
        return false;
      }
      if sp < FRAME_SIZE || sp % 16 != 0 {
        return false;
      }
      var addr := sp - FRAME_SIZE;
      addr := addr - addr % 16;
      if !FrameOk(addr, fits) {
        return false;
      }
      var f := Frame(addr, Context(regs, sp, oldBlocked));
      PushNested(mem, frames, f);
      mem := mem + FrameCells(f);
      frames := frames + [f];
      sp := addr;
      regs := regs[X0 := sig];
      regs := regs[X30 := ka.restorer];
      regs := regs[ELR := ka.handler.entry];
      return true;
    }

    /** handle_signal; false when the task is killed because no frame could be built. */
    method HandleSignal(sig: nat, ka: Action, fits: nat -> bool) returns (ok: bool)
      requires Inv() && ka.handler.User? && IsMask(ka.mask) && 1 <= sig < NSIG
      modifies this`regs, this`sp, this`mem, this`frames, this`blocked, this`restoreSigmask
      ensures Inv() && !restoreSigmask && (ok <==> FrameFits(ka, old(sp), fits))
      ensures ok ==> sp == old(sp) - 288 && regs == HandlerEntry(old(regs), sig, ka)
      ensures ok ==> blocked == HandlerMask(old(blocked), sig, ka)
      ensures ok ==> frames == old(frames) + [Frame(sp, Context(old(regs), old(sp), old(Interrupted())))]
      ensures ok ==> mem == old(mem) + FrameCells(Frame(sp, Context(old(regs), old(sp), old(Interrupted()))))
      ensures !ok ==> frames == old(frames)
    {
      var oldBlocked := blocked;
      if restoreSigmask {
        oldBlocked := savedBlocked;
        restoreSigmask := false;
      }
      var newBlocked := blocked + ka.mask;
      if !ka.nodefer {
        newBlocked := newBlocked + {sig};
      }
      newBlocked := newBlocked - UNBLOCKABLE;
      ok := SetupFrame(sig, ka, oldBlocked, fits);
      if ok {
        blocked := newBlocked;
      }
    }

    /** do_signal_stop: parked until SIGCONT or SIGKILL is among the signals that arrive. */
    method Stop(arrivals: seq<int>) returns (woken: bool)
      requires Inv()
      modifies this`pending
      ensures Inv() && woken == Wakes(arrivals) && pending == QueuedAll(old(pending), arrivals)
    {
      for i := 0 to |arrivals|
        invariant Inv() && pending == QueuedAll(old(pending), arrivals[..i])
      {
        Queue(arrivals[i]);
        assert arrivals[..i + 1][..i] == arrivals[..i];
      }
      assert arrivals[..|arrivals|] == arrivals;
      woken := SIGCONT in arrivals || SIGKILL in arrivals;
    }

    /** The end of do_signal for a caught signal. */
    method Deliver(sig: nat, ka: Action, fits: nat -> bool) returns (d: Delivery)
      requires Inv() && ka.handler.User? && IsMask(ka.mask) && 1 <= sig < NSIG
      modifies this`regs, this`sp, this`mem, this`frames, this`blocked, this`restoreSigmask, this`actions
      ensures Inv() && d == if FrameFits(ka, old(sp), fits) then Caught(sig, ka) else NoFrame(sig)
      ensures d.Caught? ==> actions == TableAfter(d, old(actions))
      ensures d.Caught? ==> !restoreSigmask && Entered(d, Restarted(old(regs), inSyscall, origX0, ka.restart), old(sp),
                                                       old(blocked), old(Interrupted()), old(mem), old(frames))
    {
      if ka.resethand {
        actions := actions[sig := ka.(handler := Dfl)];
      }
      regs := Restarted(regs, inSyscall, origX0, ka.restart);
      var ok := HandleSignal(sig, ka, fits);
      return if ok then Caught(sig, ka) else NoFrame(sig);
    }

    /** How do_signal ends from here. */
    function Verdict(fits: nat -> bool, during: seq<seq<int>>): Ended
      reads this
    {
      Signalled(pending, blocked, actions, pid, sp, fits, during)
    }

    /** do_signal; during lists, for each stop of the task, the signals that arrive while it lasts. */
    method DoSignal(fits: nat -> bool, during: seq<seq<int>>) returns (d: Delivery)
      requires Inv()
      modifies this`regs, this`sp, this`mem, this`frames, this`blocked, this`restoreSigmask, this`pending, this`actions
      ensures Inv() && Ended(d, pending) == old(Verdict(fits, during))
      ensures d.NoSignal? ==>
                Still(old(regs), old(sp), old(blocked), old(mem), old(frames), old(restoreSigmask), old(actions))
      ensures d.Caught? ==> !restoreSigmask && actions == TableAfter(d, old(actions)) && Sane(d)
      ensures d.Caught? ==> Entered(d, Restarted(old(regs), inSyscall, origX0, d.ka.restart), old(sp), old(blocked),
                                    old(Interrupted()), old(mem), old(frames))
    {
      var stops, go := 0, true;
      d := NoSignal;
      assert during[0..] == during;
      while go
        invariant Inv() && stops <= |during| && (go ==> d.NoSignal?)
        invariant go || d.NoSignal? ==>
                    Still(old(regs), old(sp), old(blocked), old(mem), old(frames), old(restoreSigmask), old(actions))
        invariant old(Verdict(fits, during)) == if go then Verdict(fits, during[stops..]) else Ended(d, pending)
        invariant d.Caught? ==> !restoreSigmask && actions == TableAfter(d, old(actions)) && Sane(d)
        invariant d.Caught? ==> Entered(d, Restarted(old(regs), inSyscall, origX0, d.ka.restart), old(sp), old(blocked),
                                        old(Interrupted()), old(mem), old(frames))
        decreases go, |during| - stops, |pending|
      {
        go, d, stops := TakeSignal(fits, during, stops);
      }
    }

    ghost predicate Still(r: seq<nat>, p: nat, b: Mask, m: Memory, f: seq<Frame>, restore: bool, table: map<nat,
                          Action>)
      reads this
    {
      regs == r && sp == p && blocked == b && mem == m && frames == f && restoreSigmask == restore && actions == table
    }

    /** One turn of the loop of do_signal; stops counts the stops so far. */
    method TakeSignal(fits: nat -> bool, during: seq<seq<int>>, stops: nat) returns (go: bool, d: Delivery, next: nat)
      requires Inv() && stops <= |during|
      modifies this`regs, this`sp, this`mem, this`frames, this`blocked, this`restoreSigmask, this`pending, this`actions
      ensures Inv() && stops <= next <= |during| && (go ==> d.NoSignal? && (next > stops || |pending| < |old(pending)|))
      ensures go || d.NoSignal? ==>
                Still(old(regs), old(sp), old(blocked), old(mem), old(frames), old(restoreSigmask), old(actions))
      ensures old(Verdict(fits, during[stops..])) == if go then Verdict(fits, during[next..]) else Ended(d, pending)
      ensures d.Caught? ==> !restoreSigmask && actions == TableAfter(d, old(actions)) && Sane(d)
      ensures d.Caught? ==> Entered(d, Restarted(old(regs), inSyscall, origX0, d.ka.restart), old(sp), old(blocked),
                                    old(Interrupted()), old(mem), old(frames))
    {
      next := stops;
      var sig := NextPending(pending, blocked);
      if sig == 0 {
        return false, NoSignal, next;
      }
      pending := pending - {sig};
      go, d, next := Dispose(sig, fits, during, stops);
    }

    /** The rest of the turn, with signal sig taken from the pending set. */
    method Dispose(sig: nat, fits: nat -> bool, during: seq<seq<int>>, stops: nat)
      returns (go: bool, d: Delivery, next: nat)
      requires Inv() && stops <= |during| && 1 <= sig < NSIG
      modifies this`regs, this`sp, this`mem, this`frames, this`blocked, this`restoreSigmask, this`pending, this`actions
      ensures Inv() && stops <= next <= |during|
      ensures go ==> d.NoSignal? && (next > stops || pending == old(pending))
      ensures go || d.NoSignal? ==>
                Still(old(regs), old(sp), old(blocked), old(mem), old(frames), old(restoreSigmask), old(actions))
      ensures old(Decide(sig, pending, blocked, actions, pid, sp, fits, during[stops..])) ==
                if go then Verdict(fits, during[next..]) else Ended(d, pending)
      ensures d.Caught? ==> !restoreSigmask && actions == TableAfter(d, old(actions)) && Sane(d)
      ensures d.Caught? ==> Entered(d, Restarted(old(regs), inSyscall, origX0, d.ka.restart), old(sp), old(blocked),
                                    old(Interrupted()), old(mem), old(frames))
      ensures !go ==> !d.NoSignal?
    {
      var mine;
      mine, go, d, next := Unhandled(sig, during, stops);
      if !mine {
        d := Deliver(sig, actions[sig], fits);
        go := false;
      }
    }

    /** The branches of do_signal before the one for a handler; mine says that one of them applied. */
    method Unhandled(sig: nat, during: seq<seq<int>>, stops: nat)
      returns (mine: bool, go: bool, d: Delivery, next: nat)
      requires Inv() && stops <= |during| && 1 <= sig < NSIG
      modifies this`pending
      ensures Inv() && stops <= next <= |during|
      ensures !mine <==> FateOf(actions[sig].handler, pid, sig) == Handled
      ensures !mine ==> pending == old(pending) && next == stops
      ensures mine && go ==> d.NoSignal? && (next > stops || pending == old(pending))
      ensures mine ==> forall fits :: Decide(sig, old(pending), blocked, actions, pid, sp, fits, during[stops..]) ==
                         if go then Verdict(fits, during[next..]) else Ended(d, pending)
      ensures mine && !go ==> !d.NoSignal? && !d.Caught?
    {
      mine, go, d, next := true, false, NoSignal, stops;
      if sig == SIGKILL {
        d := Died(sig);
        return;
      }
      var ka := actions[sig];
      if sig == SIGSTOP || (ka.handler.Dfl? && sig in STOPS) {
        go, d, next := StopTask(sig, during, stops);
      } else if ka.handler.Ign? {
        go := true;
      } else if ka.handler.Dfl? {
        if pid == 1 && sig in {SIGUSR1, SIGUSR2, SIGTERM} {
          d := PowerOff(sig);
        } else if sig in {SIGCHLD, SIGCONT, SIGURG, SIGWINCH} {
          go := true;
        } else {
          d := Died(sig);
        }
      } else {
        mine := false;
      }
    }

    /** The branch of do_signal for a stop. */
    method StopTask(sig: nat, during: seq<seq<int>>, stops: nat) returns (go: bool, d: Delivery, next: nat)
      requires Inv() && stops <= |during|
      modifies this`pending
      ensures Inv() && stops <= next <= |during| && (go ==> next == stops + 1)
      ensures go == (stops < |during| && Wakes(during[stops])) && d == if go then NoSignal else Parked(sig)
      ensures pending == if stops < |during| then QueuedAll(old(pending), during[stops]) else old(pending)
    {
      next := stops;
      if stops == |during| {
        return false, Parked(sig), next;
      }
      var woken := Stop(during[stops]);
      next := stops + 1;
      return woken, if woken then NoSignal else Parked(sig), next;
    }

    /** A handler is about to run; its frame holds regs r, stack pointer p and mask m. */
    ghost predicate Entered(d: Delivery, r: seq<nat>, p: nat, b: Mask, m: Mask, was: Memory, outer: seq<Frame>)
      requires d.Caught? && d.ka.handler.User? && |r| == NREGS
      reads this
    {
      var f := Frame(sp, Context(r, p, m));
      && p == sp + 288 && regs == HandlerEntry(r, d.sig, d.ka) && blocked == HandlerMask(b, d.sig, d.ka)
      && frames == outer + [f] && mem == was + FrameCells(f)
    }

    /** The innermost context is back and its frame is gone. */
    ghost predicate Popped(was: seq<Frame>)
      requires was != []
      reads this
    {
      Now() == was[|was| - 1].ctx && frames == was[..|was| - 1]
    }

    /** ksys_rt_sigreturn: whatever lies at sp is taken for a frame. */
    method RtSigreturn(fits: nat -> bool) returns (ok: bool)
      requires Inv()
      modifies this`regs, this`sp, this`blocked, this`frames
      ensures Inv() && (ok <==> FrameOk(old(sp), fits)) && frames <= old(frames)
      ensures !ok ==> Now() == old(Now()) && frames == old(frames)
      ensures ok ==> Now() == SavedContext(mem, old(sp)) && frames == Live(old(frames), sp)
      ensures ok && Matching(old(frames), old(sp)) ==> Popped(old(frames))
      ensures Matching(old(frames), old(sp)) ==> MatchFound(mem, old(frames), old(sp))
    {
      ReturnNested(mem, frames, sp);
      if !FrameOk(sp, fits) {
        return false;
      }
      var frame := SavedContext(mem, sp);
      frames := Live(frames, frame.sp);
      regs := frame.regs;
      sp := frame.sp;
      blocked := frame.blocked;
      return true;
    }

    /** handle_syscall for the calls that touch signals; false when the task never wakes up. */
    method HandleCall(call: Call) returns (ret: nat, awake: bool, reply: Reply)
      requires Inv() && !restoreSigmask && !call.SigReturn?
      modifies this`blocked, this`savedBlocked, this`restoreSigmask, this`pending, this`actions
      ensures Inv() && restoreSigmask == Suspends(call) && blocked == MaskDuring(call, old(blocked))
      ensures ret == CallReturns(call) && pending == CallPending(call, old(pending), old(blocked))
      ensures Suspends(call) ==> savedBlocked == old(blocked)
      ensures awake <==> !Suspends(call) || Ready(pending, blocked) != {}
      ensures actions == CallTable(call, old(actions))
      ensures call.Procmask? && ret == 0 ==> reply == MaskReply(old(blocked))
      ensures call.Pending? && ret == 0 ==> reply == MaskReply(pending * blocked)
      ensures call.SetAction? && ret == 0 ==> reply == ActionReply(old(actions)[call.sig])
    {
      awake, reply := true, NoReply;
      if !call.Plain? && call.size != SIGSET_SIZE {
        return EINVAL, awake, reply;
      }
      match call {
        case Plain(r) => ret := r;
        case Procmask(how, has, word, _) =>
          reply := MaskReply(blocked);
          ret := 0;
          if has {
            if 0 <= how <= 2 {
              blocked := NewMask(how, blocked, Decode(word));
            } else {
              ret := EINVAL;
            }
          }
        case Suspend(has, word, _, arrivals) =>
          if !has {
            return EFAULT, awake, reply;
          }
          ret := EINTR;
          savedBlocked := blocked;
          restoreSigmask := true;
          blocked := Decode(word) - UNBLOCKABLE;
          awake := SleepUntilReady(arrivals);
        case SetAction(sig, has, act, maskWord, _) =>
          if sig <= 0 || sig >= NSIG || sig == SIGKILL || sig == SIGSTOP {
            return EINVAL, awake, reply;
          }
          reply := ActionReply(actions[sig]);
          if has {
            actions := actions[sig := act.(mask := Decode(maskWord) - UNBLOCKABLE)];
          }
          ret := 0;
        case Pending(has, _) =>
          if !has {
            return EFAULT, awake, reply;
          }
          reply := MaskReply(pending * blocked);
          ret := 0;
      }
    }

    /** The loop of rt_sigsuspend; false when no signal it waits for arrives. */
    method SleepUntilReady(arrivals: seq<int>) returns (awake: bool)
      requires Inv()
      modifies this`pending
      ensures Inv() && (awake <==> Ready(pending, blocked) != {}) && pending == Slept(old(pending), blocked, arrivals)
    {
      awake := Ready(pending, blocked) != {};
      var i := 0;
      assert arrivals[0..] == arrivals;
      while !awake && i < |arrivals|
        invariant Inv() && i <= |arrivals| && (awake <==> Ready(pending, blocked) != {})
        invariant Slept(old(pending), blocked, arrivals) == Slept(pending, blocked, arrivals[i..])
      {
        assert arrivals[i..][0] == arrivals[i] && arrivals[i..][1..] == arrivals[i + 1..];
        Queue(arrivals[i]);
        awake := Ready(pending, blocked) != {};
        i := i + 1;
      }
    }

    /** The way out of a system call that returned ret. */
    method Answer(ret: nat, fits: nat -> bool, during: seq<seq<int>>) returns (d: Delivery)
      requires Inv() && inSyscall && origX0 == regs[X0]
      modifies this
      ensures Ended(d, pending) == old(Verdict(fits, during)) && (Survives(d) ==> Valid())
      ensures d.NoSignal? ==> frames == old(frames) && mem == old(mem) && actions == old(actions)
      ensures d.NoSignal? ==> Now() == Context(Final(old(regs), ret, true), old(sp), old(Interrupted()))
      ensures d.Caught? ==> Sane(d) && actions == TableAfter(d, old(actions))
      ensures d.Caught? ==> Entered(d, Final(old(regs), ret, d.ka.restart), old(sp), old(blocked), old(Interrupted()),
                                    old(mem), old(frames))
    {
      regs := regs[X0 := ret];
      d := DoSignal(fits, during);
      if Survives(d) {
        RestartedFinal(old(regs), ret, d.NoSignal? || d.ka.restart);
        Leave();
      }
    }

    /** The end of syscall_handler: syscall_exit_restart, and the mask from before a sigsuspend. */
    method Leave()
      requires Inv()
      modifies this`regs, this`inSyscall, this`blocked, this`restoreSigmask
      ensures Valid() && regs == Restarted(old(regs), old(inSyscall), origX0, true) && blocked == old(Interrupted())
    {
      regs := Restarted(regs, inSyscall, origX0, true);
      inSyscall := false;
      if restoreSigmask {
        blocked := savedBlocked - UNBLOCKABLE;
        restoreSigmask := false;
      }
    }

    /** syscall_handler for every call but rt_sigreturn. */
    method Syscall(call: Call, fits: nat -> bool, during: seq<seq<int>>) returns (ret: nat, d: Delivery)
      requires Valid() && !call.SigReturn?
      modifies this
      ensures Survives(d) ==> Valid()
      ensures CallStep(pid, call, fits, during, d, ret, old(Snapshot()), Snapshot())
    {
      inSyscall := true;
      origX0 := regs[X0];
      var awake, reply;
      ret, awake, reply := HandleCall(call);
      if !awake {
        return ret, Asleep;
      }
      d := Answer(ret, fits, during);
    }

    /** syscall_handler for rt_sigreturn. */
    method Sigreturn(fits: nat -> bool, during: seq<seq<int>>) returns (d: Delivery)
      requires Valid()
      modifies this
      ensures Survives(d) ==> Valid()
      ensures ReturnStep(pid, fits, during, d, old(Snapshot()), Snapshot())
      ensures d.NoSignal? && Matching(old(frames), old(sp)) ==> Popped(old(frames))
    {
      var ok := RtSigreturn(fits);
      if !ok {
        return BadFrame;
      }
      d := Restored(fits, during);
    }

    /** The rest of it, in the context that was restored. */
    method Restored(fits: nat -> bool, during: seq<seq<int>>) returns (d: Delivery)
      requires Valid()
      modifies this
      ensures Ended(d, pending) == old(Verdict(fits, during)) && (Survives(d) ==> Valid())
      ensures d.NoSignal? ==> Snapshot() == old(Snapshot()).(pending := pending)
      ensures d.Caught? ==> Sane(d) && actions == TableAfter(d, old(actions))
      ensures d.Caught? ==> Entered(d, old(regs), old(sp), old(blocked), old(blocked), old(mem), old(frames))
    {
      d := DoSignal(fits, during);
      if restoreSigmask {
        blocked := savedBlocked - UNBLOCKABLE;
        restoreSigmask := false;
      }
    }

    /** User code runs; it may move sp and store anywhere. */
    method Compute(r: seq<nat>, p: nat, stores: Memory)
      requires Valid() && |r| == NREGS
      modifies this`regs, this`sp, this`mem, this`frames
      ensures Valid() && Now() == Context(r, p, old(blocked)) && frames == Live(Untouched(old(frames), stores), p)
      ensures mem == old(mem) + stores
    {
      ghost var kept := Untouched(frames, stores);
      ComputeNested(mem, frames, sp, p, stores);
      mem := mem + stores;
      frames := Live(kept, p);
      regs, sp := r, p;
    }

    ghost function Snapshot(): Snap
      reads this
    {
      Snap(Now(), mem, frames, pending, actions)
    }

    /** One event. */
    method Perform(e: Event) returns (d: Delivery, ret: nat)
      requires Valid() && (e.Computes? ==> |e.regs| == NREGS)
      modifies this
      ensures Step(pid, e, d, ret, old(Snapshot()), Snapshot()) && (Survives(d) ==> Valid())
    {
      d, ret := NoSignal, 0;
      match e {
        case Computes(r, p, stores) => Compute(r, p, stores);
        case Arrives(sig) => Queue(sig);
        case Enters(call, fits, during) =>
          if call.SigReturn? {
            d := Sigreturn(fits, during);
          } else {
            ret, d := Syscall(call, fits, during);
          }
      }
    }

    /**
     * Any run: every event up to the one that ends the task is a step that it survives, and that one is a step
     * that it does not. In every state SIGKILL and SIGSTOP are not blocked and SIGCONT is not pending with a stop
     * signal.
     */
    method Run(events: seq<Event>)
      returns (outs: seq<(Delivery, nat)>, end: Delivery, ret: nat, ghost states: seq<Snap>)
      requires Valid() && forall i :: 0 <= i < |events| && events[i].Computes? ==> |events[i].regs| == NREGS
      modifies this
      ensures IsRun(pid, states, events, outs) && states[0] == old(Snapshot())
      ensures |outs| == |events| ==> Valid() && states[|events|] == Snapshot()
      ensures |outs| < |events| ==>
                !Survives(end) && Step(pid, events[|outs|], end, ret, states[|outs|], Snapshot())
      ensures forall i :: 0 <= i < |states| ==> states[i].now.blocked !! UNBLOCKABLE && PendingOk(states[i].pending)
    {
      outs, end, ret, states := [], NoSignal, 0, [Snapshot()];
      for i := 0 to |events|
        invariant |outs| == i && IsRun(pid, states, events, outs) && states[0] == old(Snapshot())
        invariant Valid() && states[i] == Snapshot()
        invariant forall k :: 0 <= k <= i ==> states[k].now.blocked !! UNBLOCKABLE && PendingOk(states[k].pending)
      {
        var d;
        d, ret := Perform(events[i]);
        if !Survives(d) {
          return outs, d, ret, states;
        }
        Extend(pid, states, events, outs, d, ret, Snapshot());
        outs, states := outs + [(d, ret)], states + [Snapshot()];
      }
    }
  }

  lemma Extend(pid: nat, states: seq<Snap>, events: seq<Event>, outs: seq<(Delivery, nat)>, d: Delivery, ret: nat,
               s: Snap)
    requires IsRun(pid, states, events, outs) && |outs| < |events| && Survives(d)
    requires Step(pid, events[|outs|], d, ret, states[|outs|], s)
    ensures IsRun(pid, states + [s], events, outs + [(d, ret)])
  {
    var ss, os := states + [s], outs + [(d, ret)];
    forall i | 0 <= i < |os| ensures StepAt(pid, ss, events, os, i) && Survives(os[i].0) {
      if i < |outs| {
        assert StepAt(pid, states, events, outs, i);
      }
    }
  }
}
