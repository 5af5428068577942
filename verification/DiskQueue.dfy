/**
  The request table of kernel/hd.c: NR_REQUEST slots, the queued ones linked
  through `next` from this_request on.  A slot is numbered; -1 is the null
  pointer, and a slot with hd = -1 is free.
 */
module DiskQueue {
  import opened Elevator

  const NR_REQUEST: nat := 32

  datatype Request = Request(hd: int, cyl: nat, head: nat, sector: nat, write: bool, bh: nat, next: int)

  const FREE := Request(-1, 0, 0, 0, false, 0, -1)

  function At(r: Request): Address
    requires r.hd >= 0
  {
    Address(r.hd, r.cyl, r.head, r.sector)
  }

  predicate NoRepeats(s: seq<nat>) { forall i, j :: 0 <= i < j < |s| ==> s[i] != s[j] }

  predicate InTable(rs: seq<Request>, s: seq<nat>) { forall i :: 0 <= i < |s| ==> s[i] < |rs| && rs[s[i]].hd >= 0 }

  predicate LinkAt(rs: seq<Request>, s: seq<nat>, k: nat)
    requires k < |s| && InTable(rs, s)
  {
    rs[s[k]].next == if k == |s| - 1 then -1 else s[k + 1]
  }

  /** The links run through the slots of `s` and end. */
  predicate Linked(rs: seq<Request>, s: seq<nat>) {
    NoRepeats(s) && InTable(rs, s) && forall k :: 0 <= k < |s| ==> LinkAt(rs, s, k)
  }

  function First(s: seq<nat>): int { if s == [] then -1 else s[0] }

  function Addresses(rs: seq<Request>, s: seq<nat>): (q: seq<Address>)
    requires InTable(rs, s)
    ensures |q| == |s| && forall k :: 0 <= k < |s| ==> q[k] == At(rs[s[k]])
  {
    seq(|s|, k requires 0 <= k < |s| => At(rs[s[k]]))
  }

  // ----- links ----------------------------------------------------------------

  /** Slot `slot` linked in behind slot `behind`. */
  function LinkBehind(rs: seq<Request>, behind: nat, slot: nat): (r: seq<Request>)
    requires behind < |rs| && slot < |rs| && behind != slot
    ensures |r| == |rs|
    ensures forall i :: 0 <= i < |rs| ==>
              r[i] == rs[i].(next := if i == behind then slot else if i == slot then rs[behind].next else rs[i].next)
  {
    rs[slot := rs[slot].(next := rs[behind].next)][behind := rs[behind].(next := slot)]
  }

  function Spliced(s: seq<nat>, k: nat, slot: nat): (t: seq<nat>)
    requires k < |s|
    ensures |t| == |s| + 1
    ensures forall j :: 0 <= j < |t| ==> t[j] == if j <= k then s[j] else if j == k + 1 then slot else s[j - 1]
  {
    s[..k + 1] + [slot] + s[k + 1..]
  }

  lemma SplicedNoRepeats(s: seq<nat>, k: nat, slot: nat)
    requires k < |s| && NoRepeats(s) && slot !in s
    ensures NoRepeats(Spliced(s, k, slot))
  {
  }

  lemma LinkBehindLinked(rs: seq<Request>, s: seq<nat>, k: nat, slot: nat)
    requires Linked(rs, s) && k < |s| && slot < |rs| && slot !in s && rs[slot].hd >= 0
    ensures Linked(LinkBehind(rs, s[k], slot), Spliced(s, k, slot))
    ensures Addresses(LinkBehind(rs, s[k], slot), Spliced(s, k, slot))
            == Addresses(rs, s)[..k + 1] + [At(rs[slot])] + Addresses(rs, s)[k + 1..]
  {
    SplicedNoRepeats(s, k, slot);
    var r, t := LinkBehind(rs, s[k], slot), Spliced(s, k, slot);
    forall j | 0 <= j < |t|
      ensures LinkAt(r, t, j)
    {
      LinkBehindAt(rs, s, k, slot, j);
    }
  }

  lemma LinkBehindAt(rs: seq<Request>, s: seq<nat>, k: nat, slot: nat, j: nat)
    requires Linked(rs, s) && k < |s| && slot < |rs| && slot !in s && rs[slot].hd >= 0 && j <= |s|
    ensures InTable(LinkBehind(rs, s[k], slot), Spliced(s, k, slot))
    ensures LinkAt(LinkBehind(rs, s[k], slot), Spliced(s, k, slot), j)
  {
    assert LinkAt(rs, s, k);
    if j <= k {
      assert LinkAt(rs, s, j);
    } else if j > k + 1 {
      assert LinkAt(rs, s, j - 1);
    }
  }

  /** Slots outside the queue may change freely. */
  lemma OthersChange(rs: seq<Request>, r: seq<Request>, s: seq<nat>)
    requires Linked(rs, s) && |r| == |rs| && forall i :: 0 <= i < |s| ==> r[s[i]] == rs[s[i]]
    ensures Linked(r, s) && Addresses(r, s) == Addresses(rs, s)
  {
    forall k | 0 <= k < |s|
      ensures LinkAt(r, s, k)
    {
      assert LinkAt(rs, s, k);
    }
  }

  lemma DropFirst(rs: seq<Request>, s: seq<nat>)
    requires Linked(rs, s) && s != []
    ensures Linked(rs, s[1..]) && First(s[1..]) == rs[s[0]].next
    ensures Addresses(rs, s[1..]) == Addresses(rs, s)[1..] && s[0] !in s[1..]
  {
    assert LinkAt(rs, s, 0);
    forall k | 0 <= k < |s| - 1
      ensures LinkAt(rs, s[1..], k)
    {
      assert LinkAt(rs, s, k + 1);
    }
  }

  /** The condition under which add_request passes over entry k, seen through the links. */
  lemma NextAddress(rs: seq<Request>, s: seq<nat>, k: nat)
    requires Linked(rs, s) && k < |s|
    ensures rs[s[k]].next == -1 <==> k + 1 == |s|
    ensures k + 1 < |s| ==> rs[s[k]].next == s[k + 1]
  {
    assert LinkAt(rs, s, k);
  }

  // ----- partitions -----------------------------------------------------------

  /** hd_info and hd. */
  datatype Drive = Drive(head: nat, sect: nat)

  predicate Geometry(drives: seq<Drive>) { forall d :: 0 <= d < |drives| ==> drives[d].head > 0 && drives[d].sect > 0 }

  datatype Partition = Partition(start: nat, sectors: nat)

  /** The address of the first sector of a block: two sectors each, counted from the start of the partition. */
  function Locate(dev: nat, block: nat, parts: seq<Partition>, drives: seq<Drive>): (a: Address)
    requires |parts| == 5 * |drives| && Geometry(drives) && dev < |parts|
    ensures dev / 5 < |drives| && a.hd == dev / 5
    ensures a.head < drives[a.hd].head && 1 <= a.sector <= drives[a.hd].sect
    ensures Linear(a, drives[a.hd].head, drives[a.hd].sect) == parts[dev].start + 2 * block
  {
    var drive := drives[dev / 5];
    SplitLinear(dev / 5, parts[dev].start + 2 * block, drive.head, drive.sect);
    Split(dev / 5, parts[dev].start + 2 * block, drive.head, drive.sect)
  }

  // ----- the table ------------------------------------------------------------

  class Disk {
    var request: array<Request>
    var thisRequest: int
    ghost var queue: seq<nat>

    /** A slot is in use exactly when it is in the queue. */
    ghost predicate Valid()
      reads this, request
    {
      ValidExcept(-1)
    }

    /** The same, but slot `slot` has just been filled and is not linked in yet. */
    ghost predicate ValidExcept(slot: int)
      reads this, request
    {
      && request.Length == NR_REQUEST
      && Linked(request[..], queue) && thisRequest == First(queue)
      && forall i :: 0 <= i < NR_REQUEST ==> (request[i].hd >= 0 <==> i in queue || i == slot)
    }

    /** The addresses queued, the one being transferred first. */
    ghost function Queued(): seq<Address>
      requires InTable(request[..], queue)
      reads this, request
    {
      Addresses(request[..], queue)
    }

    /** No slot is free: the caller has to sleep. */
    ghost predicate Full()
      requires request.Length == NR_REQUEST
      reads this, request
    {
      forall i :: 0 <= i < NR_REQUEST ==> request[i].hd >= 0
    }

    /** hd_init. */
    constructor ()
      ensures Valid() && fresh(request) && Queued() == []
    {
      request := new Request[NR_REQUEST](_ => FREE);
      thisRequest := -1;
      queue := [];
    }

    /** The search of add_request, from the second request on. */
    method SearchPlace(slot: nat) returns (tmp: nat, ghost k: nat)
      requires slot < NR_REQUEST && ValidExcept(slot) && request[slot].hd >= 0 && |queue| > 1
      ensures k == Place(Queued(), At(request[slot]), 1) && tmp == queue[Place(Queued(), At(request[slot]), 1)]
    {
      ghost var rs, s, q, a := request[..], queue, Queued(), At(request[slot]);
      NextAddress(rs, s, 0);
      NextAddress(rs, s, 1);
      tmp := request[thisRequest].next;
      k := 1;
      while request[tmp].next != -1
        invariant 1 <= k < |s| && tmp == s[k] < NR_REQUEST
        invariant Place(q, a, 1) == Place(q, a, k)
        invariant rs[tmp].next == -1 <==> k + 1 == |s|
        invariant k + 1 < |s| ==> rs[tmp].next == s[k + 1]
        decreases |s| - k
      {
        var succ: nat := request[tmp].next;
        assert q[k] == At(rs[tmp]) && q[k + 1] == At(rs[succ]);
        if (InOrder(At(request[tmp]), At(request[slot])) || !InOrder(At(request[tmp]), At(request[succ])))
           && InOrder(At(request[slot]), At(request[succ])) {
          break;
        }
        tmp := succ;
        k := k + 1;
        NextAddress(rs, s, k);
      }
    }

    /** The two assignments that link `slot` in behind `tmp`. */
    method Link(tmp: nat, slot: nat, ghost k: nat)
      requires slot < NR_REQUEST && ValidExcept(slot) && slot !in queue && request[slot].hd >= 0
      requires k < |queue| && tmp == queue[k]
      modifies this, request
      ensures Valid() && request == old(request)
      ensures Queued() == old(Queued())[..k + 1] + [old(At(request[slot]))] + old(Queued())[k + 1..]
      ensures forall i :: 0 <= i < NR_REQUEST ==> request[i] == old(request[i]).(next := request[i].next)
    {
      ghost var rs, s := request[..], queue;
      LinkBehindLinked(rs, s, k, slot);
      request[slot] := request[slot].(next := request[tmp].next);
      request[tmp] := request[tmp].(next := slot);
      queue := Spliced(s, k, slot);
      assert request[..] == LinkBehind(rs, s[k], slot);
      SplicedMembers(s, k, slot);
    }

    /** The first request of an idle disk. */
    method Start(slot: nat)
      requires slot < NR_REQUEST && ValidExcept(slot) && request[slot].hd >= 0 && request[slot].next == -1
      requires queue == []
      modifies this
      ensures Valid() && request == old(request)
      ensures Queued() == [At(request[slot])]
    {
      thisRequest := slot;
      queue := [slot];
      assert LinkAt(request[..], queue, 0);
    }

    /** add_request: `slot` is filled in, its next is null. */
    method AddRequest(slot: nat)
      requires slot < NR_REQUEST && ValidExcept(slot) && slot !in queue && request[slot].hd >= 0
      requires request[slot].next == -1
      modifies this, request
      ensures Valid() && request == old(request)
      ensures Queued() == Insert(old(Queued()), old(At(request[slot])))
      ensures forall i :: 0 <= i < NR_REQUEST ==> request[i] == old(request[i]).(next := request[i].next)
    {
      if thisRequest == -1 {
        Start(slot);
        return;
      }
      NextAddress(request[..], queue, 0);
      if request[thisRequest].next == -1 {
        Link(thisRequest, slot, 0);
      } else {
        var tmp, k := SearchPlace(slot);
        Link(tmp, slot, k);
      }
    }

    /**
      rw_abs_hd up to the wait for the buffer: takes the first free slot and
      queues the request; without a free slot the caller goes to sleep and
      tries again.
     */
    method Submit(write: bool, hd: nat, sector: nat, head: nat, cyl: nat, bh: nat) returns (slot: int)
      requires Valid()
      modifies this, request
      ensures Valid() && request == old(request)
      ensures slot == -1 <==> old(Full())
      ensures slot == -1 ==> Queued() == old(Queued()) && queue == old(queue)
      ensures slot != -1 ==> 0 <= slot < NR_REQUEST && old(request[slot].hd) < 0
      ensures slot != -1 ==> Queued() == Insert(old(Queued()), Address(hd, cyl, head, sector))
      ensures slot != -1 ==> request[slot] == Request(hd, cyl, head, sector, write, bh, request[slot].next)
    {
      var i := 0;
      while i < NR_REQUEST && request[i].hd >= 0
        invariant 0 <= i <= NR_REQUEST
        invariant forall j :: 0 <= j < i ==> request[j].hd >= 0
      {
        i := i + 1;
      }
      if i == NR_REQUEST {
        return -1;
      }
      slot := i;
      ghost var rs := request[..];
      request[slot] := Request(hd, cyl, head, sector, write, bh, -1);
      OthersChange(rs, request[..], queue);
      AddRequest(slot);
    }

    /**
      rw_hd: block numbers count two sectors each within partition `dev`.
      Out of range, nothing is queued; otherwise the request's address is that
      of sector 2 * block of the partition, inside the partition.
     */
    method ReadWrite(write: bool, dev: nat, block: nat, bh: nat, parts: seq<Partition>,
            drives: seq<Drive>) returns (slot: int)
      requires Valid() && |parts| == 5 * |drives| && Geometry(drives)
      modifies this, request
      ensures Valid() && request == old(request)
      ensures slot == -1 <==> dev >= |parts| || 2 * block + 2 > parts[dev].sectors || old(Full())
      ensures slot == -1 ==> Queued() == old(Queued())
      ensures slot != -1 ==>
                && Queued() == Insert(old(Queued()), Locate(dev, block, parts, drives))
                && 0 <= slot < NR_REQUEST && request[slot].write == write && request[slot].bh == bh
                && request[slot].hd == dev / 5
    {
      if dev >= 5 * |drives| || 2 * block + 2 > parts[dev].sectors {
        return -1;
      }
      var a := Locate(dev, block, parts, drives);
      slot := Submit(write, a.hd, a.sector, a.head, a.cyl, bh);
    }

    /** The end of read_intr and write_intr: the current request is done and its slot free. */
    method Complete() returns (done: Request)
      requires Valid() && queue != []
      modifies this, request
      ensures Valid() && request == old(request)
      ensures done.hd >= 0 && At(done) == old(Queued())[0] && done == old(request[queue[0]])
      ensures Queued() == old(Queued())[1..] && queue == old(queue)[1..]
    {
      ghost var rs, s := request[..], queue;
      DropFirst(rs, s);
      done := request[thisRequest];
      request[thisRequest] := done.(hd := -1);
      thisRequest := done.next;
      queue := s[1..];
      OthersChange(rs, request[..], queue);
    }
  }

  lemma SplicedMembers(s: seq<nat>, k: nat, slot: nat)
    requires k < |s|
    ensures forall x :: x in Spliced(s, k, slot) <==> x in s || x == slot
  {
    assert s == s[..k + 1] + s[k + 1..];
  }
}
