/**
  Pipes (fs/pipe.c, the pipe part of iput): one page used as a ring of 4095
  bytes, and one wait queue shared by readers and writers.  A method call is
  what one task does until it sleeps or returns; any tasks may be interleaved.
 */
module Pipe {

  const PAGE_SIZE: nat := 4096

  newtype Byte = b: int | 0 <= b < 256

  datatype Link = Nobody | Task(t: nat)

  /**
    Where a task is: outside the pipe code, or inside sleep_on called by
    read_pipe or write_pipe.  `asleep` is false once it has been made runnable.
   */
  datatype Mode =
    | Outside
    | Reading(want: nat, asleep: bool)
    | Writing(rest: seq<Byte>, written: nat, asleep: bool)

  /** What a call has come to. */
  datatype Outcome = Slept | Got(bytes: seq<Byte>) | Wrote(n: int) | BrokenPipe | Closed

  /** The n bytes of the ring from position `tail` on. */
  function RingSlice(page: seq<Byte>, tail: nat, n: nat): (s: seq<Byte>)
    requires |page| == PAGE_SIZE && tail < PAGE_SIZE && n < PAGE_SIZE
    ensures |s| == n
  {
    if tail + n <= PAGE_SIZE then page[tail..tail + n] else page[tail..] + page[..tail + n - PAGE_SIZE]
  }

  /** INC_PIPE. */
  function Inc(i: nat): (j: nat)
    requires i < PAGE_SIZE
    ensures j < PAGE_SIZE
  {
    if i + 1 == PAGE_SIZE then 0 else i + 1
  }

  /** PIPE_SIZE. */
  function Distance(head: nat, tail: nat): (n: nat)
    requires head < PAGE_SIZE && tail < PAGE_SIZE
    ensures n < PAGE_SIZE && (n == 0 <==> head == tail)
  {
    if head >= tail then head - tail else head + PAGE_SIZE - tail
  }

  lemma SliceHead(page: seq<Byte>, head: nat, tail: nat)
    requires |page| == PAGE_SIZE && tail < PAGE_SIZE && head < PAGE_SIZE && head != tail
    ensures Distance(head, Inc(tail)) == Distance(head, tail) - 1
    ensures RingSlice(page, tail, Distance(head, tail))
              == [page[tail]] + RingSlice(page, Inc(tail), Distance(head, Inc(tail)))
  {
  }

  lemma SliceSnoc(page: seq<Byte>, head: nat, tail: nat, c: Byte)
    requires |page| == PAGE_SIZE && tail < PAGE_SIZE && head < PAGE_SIZE && Distance(head, tail) < PAGE_SIZE - 1
    ensures Distance(Inc(head), tail) == Distance(head, tail) + 1
    ensures RingSlice(page[head := c], tail, Distance(Inc(head), tail))
              == RingSlice(page, tail, Distance(head, tail)) + [c]
  {
  }

  function Asleep(m: Mode): bool { (m.Reading? || m.Writing?) && m.asleep }

  function Wake(m: Mode): Mode {
    match m
    case Outside => Outside
    case Reading(w, _) => Reading(w, false)
    case Writing(r, n, _) => Writing(r, n, false)
  }

  /** How many of n bytes fit into a ring that holds `used`. */
  function Room(n: nat, used: nat): nat {
    if n + used < PAGE_SIZE then n else if used < PAGE_SIZE then PAGE_SIZE - 1 - used else 0
  }

  datatype Action = DoRead(t: nat, count: nat) | DoWrite(t: nat, data: seq<Byte>) | DoResume(t: nat) | DoClose

  // ----- what the calls come to -------------------------------------------------

  /** The pipe as its users see it: the bytes in it, where each task is, and how many ends are open. */
  datatype View = View(contents: seq<Byte>, modes: seq<Mode>, ends: nat)

  function Woken(modes: seq<Mode>): seq<Mode> { seq(|modes|, i requires 0 <= i < |modes| => Wake(modes[i])) }

  /** Task t has run: everybody else has been woken. */
  function After(v: View, contents: seq<Byte>, t: nat, m: Mode): View
    requires t < |v.modes|
  {
    View(contents, Woken(v.modes)[t := m], v.ends)
  }

  lemma Assoc(a: seq<Byte>, b: seq<Byte>, c: seq<Byte>)
    ensures (a + b) + c == a + (b + c)
  {
  }

  lemma ModesAfter(was: seq<Mode>, modes: seq<Mode>, t: nat)
    requires |modes| == |was| && t < |was| && forall u :: 0 <= u < |was| && u != t ==> modes[u] == Wake(was[u])
    ensures modes == Woken(was)[t := modes[t]]
  {
  }

  function Reads(v: View, t: nat, count: nat): (View, Outcome)
    requires t < |v.modes|
  {
    var k := if count < |v.contents| then count else |v.contents|;
    if v.contents != [] then (After(v, v.contents[k..], t, Outside), Got(v.contents[..k]))
    else if v.ends != 2 then (After(v, [], t, Outside), Got([]))
    else (After(v, [], t, Reading(count, true)), Slept)
  }

  /** The loop of write_pipe with `data` left and `written` bytes done. */
  function Loops(v: View, t: nat, data: seq<Byte>, written: nat): (View, Outcome)
    requires t < |v.modes|
  {
    var k := Room(|data|, |v.contents|);
    if k < |data| && v.ends == 2 then
      (After(v, v.contents + data[..k], t, Writing(data[k..], written + k, true)), Slept)
    else (After(v, v.contents + data[..k], t, Outside), Wrote(written + k))
  }

  predicate Possible(v: View, a: Action) {
    match a
    case DoRead(t, _) => t < |v.modes| && v.modes[t].Outside?
    case DoWrite(t, _) => t < |v.modes| && v.modes[t].Outside?
    case DoResume(t) => t < |v.modes| && !v.modes[t].Outside? && !Asleep(v.modes[t])
    case DoClose => v.ends > 0
  }

  function Effect(v: View, a: Action): (View, Outcome)
    requires Possible(v, a)
  {
    match a
    case DoRead(t, count) => Reads(v, t, count)
    case DoWrite(t, data) =>
      if v.ends != 2 then (After(v, v.contents, t, Outside), BrokenPipe) else Loops(v, t, data, 0)
    case DoResume(t) =>
      if v.modes[t].Reading? then Reads(v, t, v.modes[t].want) else Loops(v, t, v.modes[t].rest, v.modes[t].written)
    case DoClose => (View(v.contents, Woken(v.modes), v.ends - 1), Closed)
  }

  function Then(r: (View, seq<Outcome>), a: Action): (View, seq<Outcome>) {
    if Possible(r.0, a) then (Effect(r.0, a).0, r.1 + [Effect(r.0, a).1]) else r
  }

  /** A run: what the pipe comes to, and what each step that was possible came to. */
  function Runs(v: View, actions: seq<Action>): (View, seq<Outcome>)
    decreases |actions|
  {
    if actions == [] then (v, []) else Then(Runs(v, actions[..|actions| - 1]), actions[|actions| - 1])
  }

  /** All that readers were handed, in order. */
  function Delivered(os: seq<Outcome>): seq<Byte> {
    if os == [] then [] else Delivered(os[..|os| - 1]) + Handed(os[|os| - 1])
  }

  function Handed(o: Outcome): seq<Byte> { if o.Got? then o.bytes else [] }

  /** What the task of this step still has to write. */
  function Offered(v: View, a: Action): seq<Byte>
    requires Possible(v, a)
  {
    match a
    case DoWrite(_, data) => if v.ends == 2 then data else []
    case DoResume(t) => if v.modes[t].Writing? then v.modes[t].rest else []
    case _ => []
  }

  /** The part of it that goes into the pipe: as much as there is room for. */
  function Accepts(v: View, a: Action): (s: seq<Byte>)
    requires Possible(v, a)
    ensures s <= Offered(v, a)
  {
    Offered(v, a)[..Room(|Offered(v, a)|, |v.contents|)]
  }

  predicate By(a: Action, t: nat) { !a.DoClose? && a.t == t }

  /** What went into the pipe over a run, from task t or, without one, from all. */
  function Accepted(v: View, actions: seq<Action>, who: Link): seq<Byte>
    decreases |actions|
  {
    if actions == [] then []
    else
      var n := |actions| - 1;
      var m, a := Runs(v, actions[..n]).0, actions[n];
      Accepted(v, actions[..n], who)
      + if Possible(m, a) && (who == Nobody || By(a, who.t)) then Accepts(m, a) else []
  }

  lemma RunsOneMore(v: View, actions: seq<Action>, k: nat)
    requires k < |actions|
    ensures var m := Runs(v, actions[..k]);
            && Runs(v, actions[..k + 1]) == Then(m, actions[k])
            && Accepted(v, actions[..k + 1], Nobody) ==
               Accepted(v, actions[..k], Nobody) + if Possible(m.0, actions[k]) then Accepts(m.0, actions[k]) else []
  {
    assert actions[..k + 1][..k] == actions[..k];
  }

  lemma DeliveredOneMore(os: seq<Outcome>, o: Outcome)
    ensures Delivered(os + [o]) == Delivered(os) + Handed(o)
  {
    assert (os + [o])[..|os|] == os;
  }

  lemma EffectConserves(v: View, a: Action)
    requires Possible(v, a)
    ensures Handed(Effect(v, a).1) + Effect(v, a).0.contents == v.contents + Accepts(v, a)
  {
  }

  lemma Regroup(d: seq<Byte>, h: seq<Byte>, now: seq<Byte>, mid: seq<Byte>, c: seq<Byte>, x: seq<Byte>, y: seq<Byte>)
    requires d + mid == c + x && h + now == mid + y
    ensures (d + h) + now == c + (x + y)
  {
    assert (d + h) + now == d + (h + now) == d + (mid + y) == (d + mid) + y == (c + x) + y;
  }

  /**
    Over every interleaving of reads, writes, resumptions and closes the pipe
    loses no byte, invents none and changes no order: what readers were handed,
    followed by what is in the pipe, is what was in it at first, followed by
    what it accepted from the writers.
   */
  lemma {:induction false} NothingLost(v: View, actions: seq<Action>)
    ensures Delivered(Runs(v, actions).1) + Runs(v, actions).0.contents == v.contents + Accepted(v, actions, Nobody)
    decreases |actions|
  {
    if actions != [] {
      var n := |actions| - 1;
      var r, a := Runs(v, actions[..n]), actions[n];
      NothingLost(v, actions[..n]);
      if Possible(r.0, a) {
        EffectConserves(r.0, a);
        var e := Effect(r.0, a);
        DeliveredOneMore(r.1, e.1);
        Regroup(Delivered(r.1), Handed(e.1), e.0.contents, r.0.contents, v.contents,
            Accepted(v, actions[..n], Nobody), Accepts(r.0, a));
      }
    }
  }

  /** What the last step of task t in the run came to. */
  function LastOf(v: View, run: seq<Action>, t: nat): Outcome
    decreases |run|
  {
    if run == [] then Slept
    else
      var n := |run| - 1;
      var m := Runs(v, run[..n]).0;
      if Possible(m, run[n]) && By(run[n], t) then Effect(m, run[n]).1 else LastOf(v, run[..n], t)
  }

  /** The pipe as the last step of task t in the run found it. */
  function FoundBy(v: View, run: seq<Action>, t: nat): View
    decreases |run|
  {
    if run == [] then v
    else
      var n := |run| - 1;
      var m := Runs(v, run[..n]).0;
      if Possible(m, run[n]) && By(run[n], t) then m else FoundBy(v, run[..n], t)
  }

  /**
    The call of write in task t has put `done` into the pipe: it is asleep over the
    rest, or has answered how much; not all only if its last step found an end closed.
   */
  predicate WriteState(v: View, t: nat, done: seq<Byte>, data: seq<Byte>, found: View, last: Outcome) {
    && t < |v.modes| && done <= data && !v.modes[t].Reading?
    && (v.modes[t].Writing? ==>
          v.modes[t].written == |done| && v.modes[t].rest == data[|done|..] && last == Slept && found.ends == 2)
    && (v.modes[t].Outside? ==>
          && (last == Wrote(|done|) || (last == BrokenPipe && done == []))
          && (last == BrokenPipe || done != data ==> found.ends != 2))
  }

  lemma WriteBegins(v: View, t: nat, data: seq<Byte>)
    requires Possible(v, DoWrite(t, data))
    ensures WriteState(Effect(v, DoWrite(t, data)).0, t, Accepts(v, DoWrite(t, data)), data, v,
              Effect(v, DoWrite(t, data)).1)
  {
  }

  lemma WriteGoesOn(v: View, t: nat, done: seq<Byte>, data: seq<Byte>, found: View,
      last: Outcome)
    requires WriteState(v, t, done, data, found, last) && Possible(v, DoResume(t))
    ensures WriteState(Effect(v, DoResume(t)).0, t, done + Accepts(v, DoResume(t)), data, v, Effect(v, DoResume(t)).1)
  {
    var k := |Accepts(v, DoResume(t))|;
    assert data == done + v.modes[t].rest;
    assert data[|done|..][k..] == data[|done| + k..];
  }

  lemma WriteWaits(v: View, a: Action, t: nat, done: seq<Byte>, data: seq<Byte>, found: View,
      last: Outcome)
    requires WriteState(v, t, done, data, found, last) && Possible(v, a) && !By(a, t)
    ensures WriteState(Effect(v, a).0, t, done, data, found, last)
  {
  }

  /** The run begins with a call of write by t and has no other call by t. */
  predicate OneWrite(v: View, run: seq<Action>, t: nat, data: seq<Byte>) {
    && run != [] && run[0] == DoWrite(t, data) && Possible(v, run[0])
    && forall k :: 0 < k < |run| && By(run[k], t) ==> run[k] == DoResume(t)
  }

  /**
    What a writer passes goes into the pipe in order and without gaps, however
    often the writer sleeps and whoever runs in between; and write answers with
    the number of bytes that went in, fewer than passed only when nobody reads.
   */
  lemma {:induction false} WriteIsPrefix(v: View, run: seq<Action>, t: nat, data: seq<Byte>)
    requires OneWrite(v, run, t, data)
    ensures WriteState(Runs(v, run).0, t, Accepted(v, run, Task(t)), data, FoundBy(v, run, t), LastOf(v, run, t))
    decreases |run|
  {
    if |run| == 1 {
      WriteFirst(v, run, t, data);
    } else {
      WriteIsPrefix(v, run[..|run| - 1], t, data);
      WriteNext(v, run, t, data);
    }
  }

  lemma WriteFirst(v: View, run: seq<Action>, t: nat, data: seq<Byte>)
    requires OneWrite(v, run, t, data) && |run| == 1
    ensures WriteState(Runs(v, run).0, t, Accepted(v, run, Task(t)), data, FoundBy(v, run, t), LastOf(v, run, t))
  {
    assert run[..0] == [];
    WriteBegins(v, t, data);
    assert [] + Accepts(v, run[0]) == Accepts(v, run[0]);
  }

  lemma WriteNext(v: View, run: seq<Action>, t: nat, data: seq<Byte>)
    requires OneWrite(v, run, t, data) && |run| > 1
    requires var n := |run| - 1;
             WriteState(Runs(v, run[..n]).0, t, Accepted(v, run[..n], Task(t)), data, FoundBy(v, run[..n], t),
                 LastOf(v, run[..n], t))
    ensures WriteState(Runs(v, run).0, t, Accepted(v, run, Task(t)), data, FoundBy(v, run, t), LastOf(v, run, t))
  {
    var n := |run| - 1;
    var m, a, done := Runs(v, run[..n]).0, run[n], Accepted(v, run[..n], Task(t));
    assert done + [] == done;
    if Possible(m, a) {
      if By(a, t) {
        WriteGoesOn(m, t, done, data, FoundBy(v, run[..n], t), LastOf(v, run[..n], t));
      } else {
        WriteWaits(m, a, t, done, data, FoundBy(v, run[..n], t), LastOf(v, run[..n], t));
      }
    }
  }

  // ----- one call of read -----------------------------------------------------

  /**
    The call of read(count) in task t is asleep, because its last step found the
    pipe empty with both ends open; or it has answered with the first bytes its
    last step found there, all of them if there were no more than count.
   */
  predicate ReadState(v: View, t: nat, count: nat, found: View, last: Outcome) {
    && t < |v.modes| && !v.modes[t].Writing?
    && (v.modes[t].Reading? ==> v.modes[t].want == count && last == Slept && found.contents == [] && found.ends == 2)
    && (v.modes[t].Outside? ==>
          && last.Got? && last.bytes <= found.contents
          && |last.bytes| == (if count < |found.contents| then count else |found.contents|)
          && (last.bytes == [] ==> count == 0 || (found.contents == [] && found.ends != 2)))
  }

  lemma ReadBegins(v: View, t: nat, count: nat)
    requires Possible(v, DoRead(t, count))
    ensures var e := Effect(v, DoRead(t, count)); ReadState(e.0, t, count, v, e.1)
  {
  }

  lemma ReadGoesOn(v: View, t: nat, count: nat, found: View, last: Outcome)
    requires ReadState(v, t, count, found, last) && Possible(v, DoResume(t))
    ensures var e := Effect(v, DoResume(t)); ReadState(e.0, t, count, v, e.1)
  {
  }

  lemma ReadWaits(v: View, a: Action, t: nat, count: nat, found: View, last: Outcome)
    requires ReadState(v, t, count, found, last) && Possible(v, a) && !By(a, t)
    ensures ReadState(Effect(v, a).0, t, count, found, last)
  {
  }

  /** The run begins with a call of read by t and has no other call by t. */
  predicate OneRead(v: View, run: seq<Action>, t: nat, count: nat) {
    && run != [] && run[0] == DoRead(t, count) && Possible(v, run[0])
    && forall k :: 0 < k < |run| && By(run[k], t) ==> run[k] == DoResume(t)
  }

  /**
    However often a reader sleeps and whoever runs in between, it answers with the
    oldest bytes of the pipe, as many as are there up to what it asked for; with
    none only if it asked for none or an end is closed and the pipe empty.
   */
  lemma {:induction false} ReadIsOldest(v: View, run: seq<Action>, t: nat, count: nat)
    requires OneRead(v, run, t, count)
    ensures ReadState(Runs(v, run).0, t, count, FoundBy(v, run, t), LastOf(v, run, t))
    decreases |run|
  {
    var n := |run| - 1;
    var m, a := Runs(v, run[..n]).0, run[n];
    if n == 0 {
      assert run[..0] == [];
      ReadBegins(v, t, count);
    } else {
      ReadIsOldest(v, run[..n], t, count);
      if Possible(m, a) && By(a, t) {
        ReadGoesOn(m, t, count, FoundBy(v, run[..n], t), LastOf(v, run[..n], t));
      } else if Possible(m, a) {
        ReadWaits(m, a, t, count, FoundBy(v, run[..n], t), LastOf(v, run[..n], t));
      }
    }
  }

  class PipeInode {
    const page: array<Byte>
    var head: nat
    var tail: nat
    /** Open ends: one for the reading file and one for the writing file. */
    var iCount: nat
    var iWait: Link
    var modes: seq<Mode>
    /** What is in the ring; all bytes ever put into it; all bytes ever taken out. */
    ghost var contents: seq<Byte>
    ghost var accepted: seq<Byte>
    ghost var delivered: seq<Byte>

    ghost function Now(): View
      reads this
    {
      View(contents, modes, iCount)
    }

    predicate Empty()
      reads this
    {
      head == tail
    }

    predicate Full()
      requires head < PAGE_SIZE && tail < PAGE_SIZE
      reads this
    {
      Distance(head, tail) == PAGE_SIZE - 1
    }

    ghost predicate RingOk()
      reads this, page
    {
      && page.Length == PAGE_SIZE && head < PAGE_SIZE && tail < PAGE_SIZE
      && contents == RingSlice(page[..], tail, Distance(head, tail)) && accepted == delivered + contents
    }

    /** Nobody sleeps without being on the queue, and nobody on the queue has a reason to run. */
    ghost predicate QueueOk()
      reads this, page
      requires RingOk()
    {
      && (iWait.Task? ==> iWait.t < |modes| && Asleep(modes[iWait.t]))
      && (forall t :: 0 <= t < |modes| && Asleep(modes[t]) ==> iWait == Task(t))
      && (iWait.Task? && modes[iWait.t].Reading? ==> Empty() && iCount == 2)
      && (iWait.Task? && modes[iWait.t].Writing? ==> Full() && iCount == 2)
    }

    ghost predicate Valid()
      reads this, page
    {
      RingOk() && QueueOk() && iCount <= 2
    }

    /** get_pipe_inode. */
    constructor (tasks: nat)
      ensures Valid() && fresh(page) && iCount == 2 && accepted == [] && delivered == []
      ensures modes == seq(tasks, _ => Outside)
    {
      page := new Byte[PAGE_SIZE](_ => 0);
      head, tail := 0, 0;
      iCount := 2;
      iWait := Nobody;
      modes := seq(tasks, _ => Outside);
      contents, accepted, delivered := [], [], [];
    }

    // ----- sleeping and waking ------------------------------------------------

    /** The queue names the sleeper, if there is one; why it sleeps is another matter. */
    ghost predicate Linked()
      reads this
    {
      && (iWait.Task? ==> iWait.t < |modes| && Asleep(modes[iWait.t]))
      && (forall t :: 0 <= t < |modes| && Asleep(modes[t]) ==> iWait == Task(t))
    }

    /** wake_up(&inode->i_wait): afterwards the queue is empty and nobody is asleep. */
    method WakeUp()
      requires RingOk() && Linked()
      modifies `iWait, `modes
      ensures RingOk() && QueueOk() && iWait == Nobody
      ensures |modes| == |old(modes)| && forall t :: 0 <= t < |modes| ==> modes[t] == Wake(old(modes)[t])
    {
      assert forall t :: 0 <= t < |modes| && !Asleep(modes[t]) ==> Wake(modes[t]) == modes[t];
      if iWait.Task? {
        modes := modes[iWait.t := Wake(modes[iWait.t])];
        iWait := Nobody;
      }
    }

    // ----- the ring -----------------------------------------------------------

    /** One byte of read_pipe. */
    method TakeByte() returns (c: Byte)
      requires RingOk() && !Empty()
      modifies `tail, `contents, `delivered
      ensures RingOk() && old(contents) == [c] + contents && delivered == old(delivered) + [c]
    {
      SliceHead(page[..], head, tail);
      c := page[tail];
      tail := Inc(tail);
      contents := contents[1..];
      delivered := delivered + [c];
    }

    /** The loop of read_pipe over the bytes that are there. */
    method TakeBytes(count: nat) returns (buf: seq<Byte>)
      requires RingOk()
      modifies `tail, `contents, `delivered
      ensures RingOk()
      ensures buf + contents == old(contents) && delivered == old(delivered) + buf
      ensures |buf| == if count < |old(contents)| then count else |old(contents)|
    {
      buf := [];
      var left := count;
      ghost var c, d := contents, delivered;
      while left > 0 && !Empty()
        invariant RingOk() && |buf| == count - left && |buf| <= |c|
        invariant buf == c[..|buf|] && contents == c[|buf|..] && delivered == d + buf
        decreases left
      {
        left := left - 1;
        var x := TakeByte();
        assert c[..|buf|] + [x] == c[..|buf| + 1];
        assert (d + buf) + [x] == d + (buf + [x]);
        buf := buf + [x];
      }
      assert c[..|buf|] + c[|buf|..] == c;
    }

    /** One byte of write_pipe. */
    method PutByte(c: Byte)
      requires RingOk() && !Full()
      modifies `head, `contents, `accepted, page
      ensures RingOk() && contents == old(contents) + [c] && accepted == old(accepted) + [c]
    {
      SliceSnoc(page[..], head, tail, c);
      page[head] := c;
      assert page[..] == old(page[..])[head := c];
      head := Inc(head);
      contents := contents + [c];
      accepted := accepted + [c];
    }

    // ----- read_pipe and write_pipe -------------------------------------------

    /** read_pipe from its start, or from where it was woken: the code is the same. */
    method Read(t: nat, count: nat) returns (o: Outcome)
      requires Valid() && t < |modes| && !Asleep(modes[t])
      modifies this
      ensures Valid() && (Now(), o) == Reads(old(Now()), t, count)
      ensures |modes| == |old(modes)| && iCount == old(iCount) && page[..] == old(page[..]) && accepted == old(accepted)
      ensures o == (if old(contents) == [] then (if iCount != 2 then Got([]) else Slept)
                    else Got(old(contents)[..if count < |old(contents)| then count else |old(contents)|]))
      ensures delivered == old(delivered) + (if o.Got? then o.bytes else [])
      ensures modes[t] == if o.Slept? then Reading(count, true) else Outside
      ensures forall u :: 0 <= u < |modes| && u != t ==> modes[u] == Wake(old(modes)[u])
    {
      if Empty() {
        WakeUp();
        if iCount != 2 {
          modes := modes[t := Outside];
          ModesAfter(old(modes), modes, t);
          return Got([]);
        }
        // sleep_on saves an empty queue: everybody has just been woken
        iWait := Task(t);
        modes := modes[t := Reading(count, true)];
        ModesAfter(old(modes), modes, t);
        return Slept;
      }
      var buf := TakeBytes(count);
      ghost var c := old(contents);
      assert buf == c[..|buf|] && contents == c[|buf|..];
      WakeUp();
      modes := modes[t := Outside];
      ModesAfter(old(modes), modes, t);
      o := Got(buf);
    }

    /** write_pipe: nobody to read is an error at once. */
    method Write(t: nat, data: seq<Byte>) returns (o: Outcome)
      requires Valid() && t < |modes| && modes[t].Outside?
      modifies this, page
      ensures Valid() && (Now(), o) == Effect(old(Now()), DoWrite(t, data))
      ensures accepted == old(accepted) + Accepts(old(Now()), DoWrite(t, data))
      ensures |modes| == |old(modes)| && iCount == old(iCount) && delivered == old(delivered)
      ensures iCount != 2 ==> o == BrokenPipe && accepted == old(accepted) && modes[t] == Outside
      ensures iCount == 2 ==> var k := Room(|data|, |old(contents)|);
                              && accepted == old(accepted) + data[..k]
                              && o == (if k == |data| then Wrote(k) else Slept)
                              && modes[t] == (if k == |data| then Outside else Writing(data[k..], k, true))
      ensures forall u :: 0 <= u < |modes| && u != t ==> modes[u] == Wake(old(modes)[u])
    {
      WakeUp();
      if iCount != 2 {
        ModesAfter(old(modes), modes, t);
        return BrokenPipe;
      }
      o := WriteLoop(t, data, 0);
      ModesAfter(old(modes), modes, t);
    }

    /** One turn of the loop of write_pipe when there is room. */
    method PutAndWake(c: Byte)
      requires RingOk() && Linked() && !Full()
      modifies `head, `contents, `accepted, `iWait, `modes, page
      ensures RingOk() && Linked() && contents == old(contents) + [c] && accepted == old(accepted) + [c]
      ensures |modes| == |old(modes)| && forall t :: 0 <= t < |modes| ==> modes[t] == Wake(old(modes)[t])
    {
      PutByte(c);
      WakeUp();
    }

    /** The writer finds the ring full: it gives up if nobody reads, else it sleeps. */
    method NoRoom(t: nat, rest: seq<Byte>, written: nat) returns (o: Outcome)
      requires RingOk() && Linked() && Full() && t < |modes| && iCount <= 2
      modifies `iWait, `modes
      ensures Valid() && |modes| == |old(modes)| && o == (if iCount == 2 then Slept else Wrote(written))
      ensures modes[t] == if o.Slept? then Writing(rest, written, true) else Outside
      ensures forall u :: 0 <= u < |modes| && u != t ==> modes[u] == Wake(old(modes)[u])
    {
      WakeUp();
      if iCount != 2 {
        modes := modes[t := Outside];
        return Wrote(written);
      }
      iWait := Task(t);
      modes := modes[t := Writing(rest, written, true)];
      o := Slept;
    }

    /** As many bytes as there is room for. */
    method Fill(data: seq<Byte>) returns (k: nat)
      requires RingOk() && Linked()
      modifies this`head, this`contents, this`accepted, this`iWait, this`modes, page
      ensures RingOk() && Linked() && k == Room(|data|, |old(contents)|) && (k < |data| ==> Full())
      ensures contents == old(contents) + data[..k] && |modes| == |old(modes)|
      ensures forall u :: 0 <= u < |modes| ==> Wake(modes[u]) == Wake(old(modes)[u])
    {
      ghost var c := contents;
      k := 0;
      while k < |data| && !Full()
        invariant 0 <= k <= |data| && RingOk() && Linked() && contents == c + data[..k] && |modes| == |old(modes)|
        invariant forall u :: 0 <= u < |modes| ==> Wake(modes[u]) == Wake(old(modes)[u])
      {
        PutAndWake(data[k]);
        assert (c + data[..k]) + [data[k]] == c + data[..k + 1];
        k := k + 1;
      }
    }

    /** The loop of write_pipe, from its start or from where the writer was woken. */
    method WriteLoop(t: nat, data: seq<Byte>, written: nat) returns (o: Outcome)
      requires Valid() && t < |modes| && !Asleep(modes[t])
      modifies this, page
      ensures Valid() && (Now(), o) == Loops(old(Now()), t, data, written)
      ensures |modes| == |old(modes)| && iCount == old(iCount) && delivered == old(delivered)
      ensures var k := Room(|data|, |old(contents)|);
              && accepted == old(accepted) + data[..k]
              && o == (if k < |data| && iCount == 2 then Slept else Wrote(written + k))
              && modes[t] == (if o.Slept? then Writing(data[k..], written + k, true) else Outside)
      ensures forall u :: 0 <= u < |modes| && u != t ==> modes[u] == Wake(old(modes)[u])
    {
      var k := Fill(data);
      Assoc(old(delivered), old(contents), data[..k]);
      if k < |data| {
        o := NoRoom(t, data[k..], written + k);
      } else {
        WakeUp();
        modes := modes[t := Outside];
        o := Wrote(written + k);
      }
      ModesAfter(old(modes), modes, t);
    }

    /** A task that has been made runnable goes on where it slept. */
    method Resume(t: nat) returns (o: Outcome)
      requires Valid() && t < |modes| && !modes[t].Outside? && !Asleep(modes[t])
      modifies this, page
      ensures Valid() && (Now(), o) == Effect(old(Now()), DoResume(t))
      ensures delivered == old(delivered) + Handed(o) && accepted == old(accepted) + Accepts(old(Now()), DoResume(t))
      ensures old(modes[t].Reading?) ==>
                var c, n := old(contents), old(modes[t].want);
                && o == (if c == [] then if iCount == 2 then Slept else Got([])
                         else Got(if n < |c| then c[..n] else c))
                && contents == (if n < |c| then c[n..] else [])
                && modes[t] == if c == [] && iCount == 2 then Reading(n, true) else Outside
      ensures old(modes[t].Writing?) ==>
                var c, d, n := old(contents), old(modes[t].rest), old(modes[t].written);
                var k := if |c| + |d| <= 4095 then |d| else 4095 - |c|;
                && contents == c + d[..k]
                && o == (if k < |d| && iCount == 2 then Slept else Wrote(n + k))
                && modes[t] == if k < |d| && iCount == 2 then Writing(d[k..], n + k, true) else Outside
      ensures iCount == old(iCount) && |modes| == |old(modes)|
      ensures forall u :: 0 <= u < |modes| && u != t ==> modes[u] == Wake(old(modes)[u])
    {
      match modes[t]
      case Reading(want, _) => o := Read(t, want);
      case Writing(rest, written, _) => o := WriteLoop(t, rest, written);
    }

    /** iput when the last descriptor of one end is closed: wake everybody, then count down. */
    method CloseEnd()
      requires Valid() && iCount > 0
      modifies `iWait, `modes, `iCount
      ensures Valid() && Now() == Effect(old(Now()), DoClose).0 && iCount == old(iCount) - 1 && iWait == Nobody
      ensures |modes| == |old(modes)| && forall t :: 0 <= t < |modes| ==> modes[t] == Wake(old(modes)[t])
    {
      WakeUp();
      iCount := iCount - 1;
    }

    /** Readers and writers are never asleep together, and whoever is asleep has to wait for somebody else. */
    lemma NeverStuckTogether(t: nat, u: nat)
      requires Valid() && t < |modes| && u < |modes| && Asleep(modes[t])
      ensures u != t ==> !Asleep(modes[u])
      ensures modes[t].Reading? ==> contents == [] && iCount == 2
      ensures modes[t].Writing? ==> |contents| == PAGE_SIZE - 1 && iCount == 2
    {
      assert iWait == Task(t);
    }

    // ----- runs ---------------------------------------------------------------

    predicate MayStep(a: Action)
      reads this
      ensures MayStep(a) == Possible(Now(), a)
    {
      match a
      case DoRead(t, _) => t < |modes| && modes[t].Outside?
      case DoWrite(t, _) => t < |modes| && modes[t].Outside?
      case DoResume(t) => t < |modes| && !modes[t].Outside? && !Asleep(modes[t])
      case DoClose => iCount > 0
    }

    /**
      Over every interleaving of reads, writes, resumptions and closes the ring
      and its queue do what the plain pipe does, with the same outcomes; what
      comes out is what the outcomes say, and what goes in what the writers
      passed.
     */
    method Run(actions: seq<Action>) returns (outcomes: seq<Outcome>)
      requires Valid()
      modifies this, page
      ensures Valid() && (Now(), outcomes) == Runs(old(Now()), actions)
      ensures delivered == old(delivered) + Delivered(outcomes)
      ensures accepted == old(accepted) + Accepted(old(Now()), actions, Nobody)
    {
      outcomes := [];
      ghost var v := Now();
      for k := 0 to |actions|
        invariant Valid() && (Now(), outcomes) == Runs(v, actions[..k])
        invariant delivered == old(delivered) + Delivered(outcomes)
        invariant accepted == old(accepted) + Accepted(v, actions[..k], Nobody)
      {
        RunsOneMore(v, actions, k);
        if MayStep(actions[k]) {
          var o := Step(actions[k]);
          DeliveredOneMore(outcomes, o);
          Assoc(old(delivered), Delivered(outcomes), Handed(o));
          Assoc(old(accepted), Accepted(v, actions[..k], Nobody), Accepts(Runs(v, actions[..k]).0, actions[k]));
          outcomes := outcomes + [o];
        }
      }
      assert actions[..|actions|] == actions;
    }

    method Step(a: Action) returns (o: Outcome)
      requires Valid() && Possible(Now(), a)
      modifies this, page
      ensures Valid() && (Now(), o) == Effect(old(Now()), a)
      ensures delivered == old(delivered) + Handed(o) && accepted == old(accepted) + Accepts(old(Now()), a)
    {
      match a
      case DoRead(t, n) => o := Read(t, n);
      case DoWrite(t, d) => o := Write(t, d);
      case DoResume(t) => o := Resume(t);
      case DoClose => CloseEnd(); o := Closed;
    }
  }
}
