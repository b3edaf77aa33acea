/** kernel/virtio_disk.c: requests to the disk through virtio descriptors, rings and
    interrupts (sections 2.6 and 5.2 of VIRTIO 1.1). Every method is one section under
    vdisk_lock, one step of the device, or a change to a buffer by its holder; any sequence of
    calls is a run. */
module Virtio {
  import opened Blocks
  import opened Common

  const NUM := 8
  const NEXT := 1
  const WRITE := 2
  const UINT16 := 0x1_0000
  const IN := 0   // read the disk
  const OUT := 1  // write the disk
  const SECTORS := BSIZE / 512

  /** Where a request is: in the avail ring, with the device, in the used ring, or handled
      by the interrupt. */
  datatype Stage = InAvail | AtDevice | InUsed | Seen

  /** A request: its three descriptors, its buffer, whether it is a write, the block, and what
      the buffer held when it was posted. */
  datatype Request = Request(head: nat, data: nat, status: nat, buf: nat, write: bool, blockno: nat, sent: Block,
                             stage: Stage)

  /** What a descriptor points to: nothing, a command in ops, the contents of a buffer, or the
      status in info. */
  datatype Addr = Nil | Op(i: nat) | Data(buf: nat) | Status(i: nat)

  datatype Desc = Desc(addr: Addr, len: nat, flags: nat, next: nat)

  const NODESC := Desc(Nil, 0, 0, 0)

  datatype Command = Command(typ: nat, reserved: nat, sector: nat)

  datatype Info = Info(buf: nat, status: nat)

  /** A transfer that the device has made for request n, and the block that it moved. */
  datatype Transfer = Transfer(n: nat, write: bool, blockno: nat, block: Block)

  /** How many descriptors are free. */
  function FreeCount(free: seq<bool>): nat {
    if free == [] then 0 else FreeCount(free[1..]) + (if free[0] then 1 else 0)
  }

  lemma {:induction false} FreeCountUpdate(free: seq<bool>, i: nat, b: bool)
    requires i < |free|
    ensures FreeCount(free[i := b]) == FreeCount(free) - (if free[i] then 1 else 0) + (if b then 1 else 0)
  {
    if i == 0 {
      assert free[i := b][1..] == free[1..];
    } else {
      assert free[i := b][1..] == free[1..][i - 1 := b];
      FreeCountUpdate(free[1..], i - 1, b);
    }
  }

  /** The chain of a request as the device reads it. */
  ghost predicate Chained(desc: seq<Desc>, r: Request)
    requires |desc| == NUM && r.head < NUM && r.data < NUM && r.status < NUM
  {
    && desc[r.head] == Desc(Op(r.head), 16, NEXT, r.data)
    && desc[r.data] == Desc(Data(r.buf), BSIZE, if r.write then NEXT else NEXT + WRITE, r.status)
    && desc[r.status] == Desc(Status(r.head), 1, WRITE, 0)
  }

  ghost predicate Proper(r: Request) {
    r.head < NUM && r.data < NUM && r.status < NUM && r.head != r.data && r.head != r.status && r.data != r.status
  }

  /** Every descriptor is free or belongs to exactly one request, as one of its three. */
  ghost predicate Partition(free: seq<bool>, desc: seq<Desc>, live: map<nat, Request>, user: map<nat, nat>) {
    && |free| == |desc| == NUM
    && (forall i :: 0 <= i < NUM ==> (free[i] <==> i !in user))
    && (forall i :: i in user ==> i < NUM && user[i] in live && i in Three(live[user[i]]))
    && (forall n :: n in live ==> Placed(desc, live[n], user, n))
    && 3 * |live| + FreeCount(free) == NUM
  }

  function Three(r: Request): set<nat> { {r.head, r.data, r.status} }

  ghost predicate Placed(desc: seq<Desc>, r: Request, user: map<nat, nat>, n: nat)
    requires |desc| == NUM
  {
    && Proper(r) && Chained(desc, r)
    && r.head in user && r.data in user && r.status in user && user[r.head] == user[r.data] == user[r.status] == n
  }

  /** The avail ring holds the heads of the requests that the device has not taken yet. idx is
      a 16-bit counter; posted and popped count without wrapping. */
  ghost predicate AvailOk(live: map<nat, Request>, avail: seq<nat>, availIdx: nat, posted: nat, popped: nat) {
    && |avail| == NUM && availIdx == posted % UINT16 && popped <= posted
    && (forall n :: n in live ==> n < posted && (live[n].stage == InAvail <==> popped <= n))
    && (forall n :: popped <= n < posted ==> n in live && avail[n % NUM] == live[n].head)
  }

  /** The used ring holds the heads of the requests in queue. */
  ghost predicate UsedOk(live: map<nat, Request>, used: seq<nat>, devIdx: nat, usedIdx: nat, done: nat, seen: nat,
                         queue: seq<nat>) {
    && |used| == NUM && devIdx == done % UINT16 && usedIdx == seen % UINT16 && done == seen + |queue|
    && (forall j :: 0 <= j < |queue| ==> Queued(live, used, seen, queue, j))
    && (forall j, k :: 0 <= j < k < |queue| ==> queue[j] != queue[k])
    && (forall n :: n in live && live[n].stage == InUsed ==> n in queue)
  }

  ghost predicate Queued(live: map<nat, Request>, used: seq<nat>, seen: nat, queue: seq<nat>, j: nat)
    requires |used| == NUM && j < |queue|
  {
    queue[j] in live && live[queue[j]].stage == InUsed && used[(seen + j) % NUM] == live[queue[j]].head
  }

  /** b->disk is set from the request until the interrupt, and a buffer has one request. */
  ghost predicate Buffers(live: map<nat, Request>, info: seq<Info>, busy: set<nat>, completed: set<nat>) {
    && |info| == NUM
    && (forall n :: n in live ==> live[n].head < NUM && info[live[n].head].buf == live[n].buf
                                  && (live[n].buf in busy <==> live[n].stage != Seen)
                                  && (live[n].stage in {InUsed, Seen} ==> n in completed))
    && (forall n, m :: n in live && m in live && n != m ==> live[n].buf != live[m].buf)
  }

  /** The command of a request, and what its buffer holds: what was posted, for a write; and once
      the device is done with it and did not fail, what was transferred. */
  ghost predicate Carried(r: Request, n: nat, info: seq<Info>, ops: seq<Command>, data: map<nat, Block>,
                          log: seq<Transfer>)
    requires |info| == |ops| == NUM
  {
    && r.head < NUM && ops[r.head] == Command(if r.write then OUT else IN, 0, r.blockno * SECTORS) && r.buf in data
    && (r.write ==> data[r.buf] == r.sent)
    && (r.stage == Seen || (r.stage == InUsed && info[r.head].status == 0) ==>
          Transfer(n, r.write, r.blockno, data[r.buf]) in log)
  }

  ghost predicate Carriage(live: map<nat, Request>, info: seq<Info>, ops: seq<Command>, data: map<nat, Block>,
                           log: seq<Transfer>) {
    |info| == |ops| == NUM && forall n :: n in live ==> Carried(live[n], n, info, ops, data, log)
  }

  /** The disk after some transfers. */
  ghost function After(plate: seq<Block>, log: seq<Transfer>): (r: seq<Block>)
    ensures |r| == |plate|
  {
    if log == [] then plate
    else
      var k := |log| - 1;
      var p := After(plate, log[..k]);
      if log[k].write && log[k].blockno < |plate| then p[log[k].blockno := log[k].block] else p
  }

  /** Every read gave what was on the disk, after the transfers before it. */
  ghost predicate Right(plate: seq<Block>, log: seq<Transfer>) {
    forall k :: 0 <= k < |log| ==>
      && log[k].blockno < |plate|
      && (!log[k].write ==> log[k].block == After(plate, log[..k])[log[k].blockno])
  }

  /** Each request is transferred at most once, and not before the device has it. */
  ghost predicate Once(live: map<nat, Request>, log: seq<Transfer>, posted: nat) {
    && (forall k :: 0 <= k < |log| ==>
          log[k].n < posted && (log[k].n in live ==> live[log[k].n].stage in {InUsed, Seen}))
    && (forall j, k :: 0 <= j < k < |log| ==> log[j].n != log[k].n)
  }

  /** What happened so far: the requests from posting to return, by number; whose request a
      descriptor belongs to; how many requests were posted, popped by the device, done by
      it and seen by the interrupt; those done and not seen; all that were ever done; what was on
      the disk at first, and all transfers. */
  datatype Trace = Trace(live: map<nat, Request>, user: map<nat, nat>, posted: nat, popped: nat,
                         done: nat, seen: nat, queue: seq<nat>, completed: set<nat>,
                         plate: seq<Block>, log: seq<Transfer>)

  /** The whole state of a disk. */
  datatype View = View(free: seq<bool>, desc: seq<Desc>, info: seq<Info>, ops: seq<Command>, avail: seq<nat>,
                       availIdx: nat, used: seq<nat>, devIdx: nat, usedIdx: nat, busy: set<nat>, popIdx: nat,
                       data: map<nat, Block>, plate: seq<Block>, t: Trace)

  /** The invariant, part by part; the quantifiers keep the parts folded in proofs that only
      pass them on. */
  ghost predicate PartOk(v: View) {
    forall u {:trigger Open(u)} :: Open(u) ==> Partition(v.free, v.desc, v.t.live, v.t.user)
  }

  ghost predicate AvOk(v: View) {
    forall u {:trigger Open(u)} :: Open(u) ==> AvailOk(v.t.live, v.avail, v.availIdx, v.t.posted, v.t.popped)
  }

  ghost predicate UsOk(v: View) {
    forall u {:trigger Open(u)} :: Open(u) ==>
      UsedOk(v.t.live, v.used, v.devIdx, v.usedIdx, v.t.done, v.t.seen, v.t.queue)
  }

  ghost predicate BufOk(v: View) {
    forall u {:trigger Open(u)} :: Open(u) ==> Buffers(v.t.live, v.info, v.busy, v.t.completed)
  }

  ghost predicate CarOk(v: View) {
    forall u {:trigger Open(u)} :: Open(u) ==> Carriage(v.t.live, v.info, v.ops, v.data, v.t.log)
  }

  ghost predicate LogOk(v: View) {
    forall u {:trigger Open(u)} :: Open(u) ==>
      Once(v.t.live, v.t.log, v.t.posted) && Right(v.t.plate, v.t.log) && v.plate == After(v.t.plate, v.t.log)
  }

  ghost predicate Good(v: View) {
    PartOk(v) && AvOk(v) && UsOk(v) && BufOk(v) && CarOk(v) && LogOk(v) && v.popIdx == v.t.popped % UINT16
  }

  class Disk {
    var free: seq<bool>
    var desc: seq<Desc>
    var info: seq<Info>
    var ops: seq<Command>
    var avail: seq<nat>       // avail->ring
    var availIdx: nat         // avail->idx
    var used: seq<nat>        // used->ring, the ids
    var devIdx: nat           // used->idx, the device's
    var usedIdx: nat          // used_idx, the driver's
    var busy: set<nat>        // buffers with b->disk == 1
    var popIdx: nat           // how far the device has read the avail ring
    var data: map<nat, Block> // b->data of every buffer
    var plate: seq<Block>           // what is on the disk
    ghost var trace: Trace

    constructor (data: map<nat, Block>, plate: seq<Block>)
      ensures Valid() && trace.live == map[] && busy == {} && this.data == data && this.plate == plate
      ensures trace.plate == plate && trace.log == []
    {
      free, desc, info := seq(NUM, _ => true), seq(NUM, _ => NODESC), seq(NUM, _ => Info(0, 0));
      ops, this.data, this.plate := seq(NUM, _ => Command(0, 0, 0)), data, plate;
      avail, used := seq(NUM, _ => 0), seq(NUM, _ => 0);
      availIdx, devIdx, usedIdx, popIdx, busy := 0, 0, 0, 0, {};
      trace := Trace(map[], map[], 0, 0, 0, 0, [], {}, plate, []);
      new;
      assert free == [true, true, true, true, true, true, true, true];
      AllFree();
      AtFirst(Now());
    }

    ghost predicate Valid()
      reads this
    {
      Good(Now())
    }

    ghost function Now(): View
      reads this
    {
      View(free, desc, info, ops, avail, availIdx, used, devIdx, usedIdx, busy, popIdx, data, plate, trace)
    }

    /** alloc_desc: the first free descriptor, or -1. */
    method AllocDesc() returns (r: int)
      requires |free| == NUM
      modifies `free
      ensures r == -1 ==> free == old(free) && forall i :: 0 <= i < NUM ==> !free[i]
      ensures r != -1 ==> && 0 <= r < NUM && old(free)[r] && (forall i :: 0 <= i < r ==> !old(free)[i])
                          && free == old(free)[r := false]
    {
      var i := 0;
      while i < NUM
        invariant 0 <= i <= NUM && free == old(free) && forall j :: 0 <= j < i ==> !free[j]
      {
        if free[i] {
          free := free[i := false];
          return i;
        }
        i := i + 1;
      }
      return -1;
    }

    /** free_desc: false is its panics. */
    method FreeDesc(i: nat) returns (ok: bool)
      requires |free| == |desc| == NUM
      modifies `free, `desc
      ensures ok == (i < NUM && !old(free)[i])
      ensures if ok then free == old(free)[i := true] && desc == old(desc)[i := NODESC]
        else free == old(free) && desc == old(desc)
    {
      if i >= NUM || free[i] {
        return false;
      }
      desc := desc[i := NODESC];
      free := free[i := true];
      return true;
    }

    /** free_chain: frees the three descriptors of a chain, and no others. */
    method FreeChain(head: nat, ghost r: Request) returns (ok: bool)
      requires |free| == |desc| == NUM && Proper(r) && Chained(desc, r) && head == r.head
      requires !free[r.head] && !free[r.data] && !free[r.status]
      modifies `free, `desc
      ensures ok && free == old(free)[r.head := true][r.data := true][r.status := true]
      ensures desc == old(desc)[r.head := NODESC][r.data := NODESC][r.status := NODESC]
    {
      var i := head;
      ghost var k := 0;
      while true
        invariant 0 <= k < 3 && i == (if k == 0 then r.head else if k == 1 then r.data else r.status)
        invariant free == (if k == 0 then old(free) else if k == 1 then old(free)[r.head := true]
                           else old(free)[r.head := true][r.data := true])
        invariant desc == (if k == 0 then old(desc) else if k == 1 then old(desc)[r.head := NODESC]
                           else old(desc)[r.head := NODESC][r.data := NODESC])
        decreases 3 - k
      {
        var flags, next := desc[i].flags, desc[i].next;
        ok := FreeDesc(i);
        if flags % 2 != NEXT {
          return;
        }
        i := next;
        k := k + 1;
      }
    }

    /** alloc3_desc's way back: the descriptors in idx are freed again. */
    method GiveBack(idx: seq<nat>, ghost free0: seq<bool>, ghost desc0: seq<Desc>)
      requires |free0| == |desc0| == NUM && desc == desc0 && Minus(free0, free, idx) && Distinct(idx)
      requires forall k :: 0 <= k < |idx| ==> idx[k] < NUM && free0[idx[k]]
      modifies `free, `desc
      ensures Minus(free0, free, []) && |desc| == NUM && forall x :: 0 <= x < NUM && !free0[x] ==> desc[x] == desc0[x]
    {
      var j := 0;
      assert idx[0..] == idx;
      while j < |idx|
        invariant 0 <= j <= |idx| && Minus(free0, free, idx[j..]) && |desc| == NUM
        invariant forall x :: 0 <= x < NUM && !free0[x] ==> desc[x] == desc0[x]
      {
        NotLater(idx, j);
        var ok := FreeDesc(idx[j]);
        j := j + 1;
      }
    }

    /** alloc3_desc: three free descriptors or, if there are not enough, none. */
    method Alloc3Desc() returns (ok: bool, idx: seq<nat>)
      requires |free| == |desc| == NUM
      modifies `free, `desc
      ensures |free| == |desc| == NUM && ok == (FreeCount(old(free)) >= 3) && (!ok ==> free == old(free))
      ensures ok ==> |idx| == 3 && Three3(old(free), free, idx[0], idx[1], idx[2]) && desc == old(desc)
      ensures forall x :: 0 <= x < NUM && !old(free)[x] ==> desc[x] == old(desc)[x]
    {
      ghost var free0, desc0 := free, desc;
      idx := [];
      var i := 0;
      while i < 3
        invariant
          && 0 <= i == |idx| <= 3 && Minus(free0, free, idx) && Distinct(idx) && desc == desc0
          && FreeCount(free) == FreeCount(free0) - i
        invariant forall k :: 0 <= k < i ==> idx[k] < NUM && free0[idx[k]]
      {
        ghost var was := free;
        var d := AllocDesc();
        if d < 0 {
          NoneFree(free);
          GiveBack(idx, free0, desc0);
          assert free == free0;
          return false, idx;
        }
        FreeCountUpdate(was, d, false);
        OneMore(free0, was, idx, d, free);
        idx := idx + [d];
        i := i + 1;
      }
      TookThree(free0, free, idx);
      return true, idx;
    }

    /** The holder of a buffer without a request changes what it holds. */
    method Store(buf: nat, block: Block)
      requires Valid() && forall m :: m in trace.live ==> trace.live[m].buf != buf
      modifies `data
      ensures Valid() && data == old(data)[buf := block]
    {
      ghost var v := Now();
      Stored(v, buf, block);
      data := data[buf := block];
      assert Now() == v.(data := v.data[buf := block]);
    }

    /** virtio_disk_rw up to its wait for the interrupt. false: there are not three free
        descriptors, and the caller sleeps, holding none. The sector number is computed from a
        32-bit block number. */
    method Post(buf: nat, blockno: nat, write: bool) returns (ok: bool, ghost n: nat)
      requires Valid() && buf in data && forall m :: m in trace.live ==> trace.live[m].buf != buf
      modifies `free, `desc, `info, `ops, `avail, `availIdx, `busy, `trace
      ensures Valid() && ok == (FreeCount(old(free)) >= 3) && n == old(trace.posted)
      ensures !ok ==> Now() == old(Now()).(desc := desc)
      ensures ok ==> && n !in old(trace.live) && n in trace.live && trace.live == old(trace.live)[n := trace.live[n]]
                     && trace.live[n].buf == buf && trace.live[n].stage == InAvail && buf in busy
                     && trace.live[n].write == write && trace.live[n].blockno == blockno % 0x8000_0000
                     && trace.live[n].sent == data[buf]
                     && trace == old(trace).(live := trace.live, user := trace.user, posted := n + 1)
    {
      ghost var v := Now();
      Sizes(v);
      var idx;
      ok, idx := Alloc3Desc();
      n := trace.posted;
      if !ok {
        Refused(v, desc);
        assert Now() == v.(desc := desc);
        return;
      }
      Format(buf, blockno, write, idx[0], idx[1], idx[2], v.free);
    }

    /** The chain h, d, s is filled in and given to the device. */
    method Format(buf: nat, blockno: nat, write: bool, h: nat, d: nat, s: nat, ghost free0: seq<bool>)
      requires Good(Now().(free := free0)) && Three3(free0, free, h, d, s) && buf in data
      requires (forall m :: m in trace.live ==> trace.live[m].buf != buf) && |desc| == |info| == |avail| == |ops| == NUM
      modifies `desc, `info, `ops, `avail, `availIdx, `busy, `trace
      ensures Valid() && buf in busy && old(trace).posted !in old(trace).live
      ensures trace == old(trace).(live := trace.live, user := trace.user, posted := old(trace).posted + 1)
      ensures trace.live == old(trace).live[old(trace).posted :=
                Request(h, d, s, buf, write, blockno % 0x8000_0000, data[buf], InAvail)]
    {
      var sector := blockno * SECTORS % 0x1_0000_0000;
      SectorOf(blockno);
      var op := Command(if write then OUT else IN, 0, sector);
      var flags := if write then NEXT else NEXT + WRITE;
      ghost var n, v := trace.posted, Now().(free := free0);
      ghost var r := Request(h, d, s, buf, write, blockno % 0x8000_0000, data[buf], InAvail);
      ghost var trace' := trace.(live := trace.live[n := r], user := trace.user[h := n][d := n][s := n],
                                 posted := n + 1);
      Fill(h, d, s, op, flags, buf, trace');
      Posted(v, free, r, n, Now());
    }

    method Fill(h: nat, d: nat, s: nat, op: Command, flags: nat, buf: nat, ghost trace': Trace)
      requires h < NUM && d < NUM && s < NUM && |desc| == |info| == |avail| == |ops| == NUM
      modifies `desc, `info, `ops, `avail, `availIdx, `busy, `trace
      ensures desc == old(desc)[h := Desc(Op(h), 16, NEXT, d)][d := Desc(Data(buf), BSIZE, flags, s)]
                               [s := Desc(Status(h), 1, WRITE, 0)]
      ensures info == old(info)[h := Info(buf, 0xff)] && ops == old(ops)[h := op] && busy == old(busy) + {buf}
      ensures avail == old(avail)[old(availIdx) % NUM := h] && availIdx == (old(availIdx) + 1) % UINT16
      ensures trace == trace'
    {
      var desc' := desc[h := Desc(Op(h), 16, NEXT, d)][d := Desc(Data(buf), BSIZE, flags, s)]
                       [s := Desc(Status(h), 1, WRITE, 0)];
      var info', ops', busy' := info[h := Info(buf, 0xff)], ops[h := op], busy + {buf};
      var avail', idx' := avail[availIdx % NUM := h], (availIdx + 1) % UINT16;
      desc, info, ops, busy, avail, availIdx, trace := desc', info', ops', busy', avail', idx', trace';
    }

    /** The device takes the next chain from the avail ring, if there is one. */
    method Pop() returns (got: bool, id: nat, ghost n: nat)
      requires Valid()
      modifies `popIdx, `trace
      ensures Valid() && got == (old(trace).popped < old(trace).posted) && (!got ==> trace == old(trace))
      ensures got ==> && n == old(trace).popped && n in old(trace).live && id == old(trace).live[n].head
                      && trace == Moved(old(trace), n, AtDevice).(popped := n + 1)
    {
      ghost var v := Now();
      Sizes(v);
      n := trace.popped;
      id := avail[popIdx % NUM];
      PopFacts(v);
      if popIdx == availIdx {
        return false, id, n;
      }
      var idx' := (popIdx + 1) % UINT16;
      ghost var trace' := Moved(trace, n, AtDevice).(popped := n + 1);
      Popped(v, n, v.(popIdx := idx', t := trace'));
      popIdx, trace := idx', trace';
      assert Now() == v.(popIdx := idx', t := trace');
      return true, id, n;
    }

    /** The device deals with request n, whose chain starts at id: it goes by the command and the
        descriptors, moves the block, writes the status and puts the chain on the used ring. It
        may fail; it only reads what is device-readable and only writes what is
        device-writable. */
    method Complete(id: nat, fail: bool, ghost n: nat)
      requires Valid() && n in trace.live && trace.live[n].stage == AtDevice && id == trace.live[n].head
      modifies `info, `used, `devIdx, `data, `plate, `trace
      ensures Valid() && |info| == NUM && id < NUM && n in trace.completed
      ensures trace == Moved(old(trace), n, InUsed).(done := trace.done, queue := old(trace).queue + [n],
                                                     completed := old(trace).completed + {n}, log := trace.log)
      ensures info[id].status == 0 <==> !fail && trace.live[n].blockno < |old(plate)|
      ensures info[id].status != 0 ==> data == old(data) && plate == old(plate) && trace.log == old(trace).log
      ensures info[id].status == 0 ==>
        var r := trace.live[n];
        && r.buf in data && trace.log == old(trace).log + [Transfer(n, r.write, r.blockno, data[r.buf])]
        && if r.write then plate == old(plate)[r.blockno := r.sent] && data == old(data)
           else plate == old(plate) && data == old(data)[r.buf := plate[r.blockno]]
    {
      ghost var v, r := Now(), trace.live[n];
      Sizes(v);
      ChainFacts(v, n);
      var first := desc[id];
      var second := desc[first.next];
      var third := desc[second.next];
      var status, data', plate' := Serve(ops[first.addr.i], second, fail);
      ServeMoves(v, n, fail, status, data', plate');
      ghost var log' := if status == 0 then trace.log + [Transfer(n, r.write, r.blockno, data'[r.buf])] else trace.log;
      ghost var trace' := Moved(trace, n, InUsed).(done := trace.done + 1, queue := trace.queue + [n],
                                                   completed := trace.completed + {n}, log := log');
      Return(id, third.addr.i, status, data', plate', trace');
      Completed(v, n, id, status, Now());
    }

    method Return(id: nat, at: nat, status: nat, data': map<nat, Block>, plate': seq<Block>, ghost trace': Trace)
      requires at < NUM == |info| == |used|
      modifies `info, `used, `devIdx, `data, `plate, `trace
      ensures Now() == old(Now()).(info := old(info)[at := Info(old(info)[at].buf, status)],
                                   used := old(used)[old(devIdx) % NUM := id], devIdx := (old(devIdx) + 1) % UINT16,
                                   data := data', plate := plate', t := trace')
    {
      var info', used', idx' := info[at := Info(info[at].buf, status)], used[devIdx % NUM := id], (devIdx + 1) % UINT16;
      info, used, data, plate, devIdx, trace := info', used', data', plate', idx', trace';
      assert free == old(free) && desc == old(desc) && ops == old(ops) && avail == old(avail) && busy == old(busy);
      assert availIdx == old(availIdx) && usedIdx == old(usedIdx) && popIdx == old(popIdx);
    }

    /** One request alone: virtio_disk_rw with the device and the interrupt. A read leaves what is on
        the disk in the buffer, a write leaves what is in the buffer on the disk, and nothing else
        changes. A failure of the device, or a block that the disk does not have, is a panic. */
    method Rw(buf: nat, blockno: nat, write: bool, fail: bool) returns (panicked: bool)
      requires Valid() && trace.live == map[] && trace.queue == [] && trace.popped == trace.posted
      requires FreeCount(free) >= 3 && buf in data && blockno < 0x8000_0000
      modifies this
      ensures Valid() && (panicked <==> fail || blockno >= |old(plate)|)
      ensures !panicked ==>
        && trace.live == map[] && trace.queue == [] && trace.popped == trace.posted && buf in data
        && if write then plate == old(plate)[blockno := data[buf]] && data == old(data)
           else plate == old(plate) && data == old(data)[buf := plate[blockno]]
    {
      var id;
      ghost var n;
      id, n := Submit(buf, blockno, write, fail);
      panicked := Settle(id, n);
    }

    /** The first half of it: the device is done. */
    method Submit(buf: nat, blockno: nat, write: bool, fail: bool) returns (id: nat, ghost n: nat)
      requires Valid() && trace.live == map[] && trace.queue == [] && trace.popped == trace.posted
      requires FreeCount(free) >= 3 && buf in data && blockno < 0x8000_0000
      modifies this
      ensures Returned(id, n) && (info[id].status == 0 <==> !fail && blockno < |old(plate)|)
      ensures info[id].status == 0 ==>
        && buf in data
        && if write then plate == old(plate)[blockno := data[buf]] && data == old(data)
           else plate == old(plate) && data == old(data)[buf := plate[blockno]]
    {
      id, n := Give(buf, blockno, write);
      ghost var r := trace.live[n];
      Complete(id, fail, n);
      assert trace.live == map[n := r.(stage := InUsed)];
    }

    /** Up to where the device has it. */
    method Give(buf: nat, blockno: nat, write: bool) returns (id: nat, ghost n: nat)
      requires Valid() && trace.live == map[] && trace.queue == [] && trace.popped == trace.posted
      requires FreeCount(free) >= 3 && buf in data && blockno < 0x8000_0000
      modifies `free, `desc, `info, `ops, `avail, `availIdx, `busy, `popIdx, `trace
      ensures Valid() && trace.queue == [] && trace.popped == trace.posted && n in trace.live
      ensures var r := trace.live[n];
        && trace.live == map[n := r] && r.stage == AtDevice && id == r.head
        && r.buf == buf && r.blockno == blockno && r.write == write && r.sent == data[buf]
    {
      var ok, got;
      ghost var m;
      ok, n := Post(buf, blockno, write);
      got, id, m := Pop();
    }

    /** Request n is the only one, and in the used ring. */
    ghost predicate Returned(id: nat, n: nat)
      reads this
    {
      && Valid() && trace.live.Keys == {n} && trace.live[n].stage == InUsed && id == trace.live[n].head < |info|
      && trace.queue == [n] && trace.popped == trace.posted
    }

    /** The second half: the interrupt, and the return. */
    method Settle(id: nat, ghost n: nat) returns (panicked: bool)
      requires Returned(id, n)
      modifies `usedIdx, `busy, `trace, `free, `desc, `info
      ensures Valid() && (panicked <==> old(info)[id].status != 0)
      ensures !panicked ==> trace.live == map[] && trace.queue == [] && trace.popped == trace.posted
    {
      panicked := Intr();
      if !panicked {
        HandledBuffer(Now(), n);
        var ok := Finish(id, n);
      }
    }

    /** What the device does for a command on the block that d describes; status 1 is an error, 2
        a command that it does not support. */
    method Serve(op: Command, d: Desc, fail: bool) returns (status: nat, data': map<nat, Block>, plate': seq<Block>)
      ensures Served(op, d, fail, data, plate, status, data', plate')
    {
      data', plate' := data, plate;
      var b := op.sector / SECTORS;
      if fail || b >= |plate| {
        return 1, data', plate';
      }
      if op.sector % SECTORS != 0 || d.len != BSIZE || !d.addr.Data? || d.addr.buf !in data {
        return 2, data', plate';
      }
      if op.typ == IN && d.flags / WRITE % 2 == 1 {
        return 0, data[d.addr.buf := plate[b]], plate';
      }
      if op.typ == OUT && d.flags / WRITE % 2 == 0 {
        return 0, data', plate[b := data[d.addr.buf]];
      }
      return 2, data', plate';
    }

    /** One turn of virtio_disk_intr's loop; panicked is its check of the status. */
    method IntrOne() returns (more: bool, panicked: bool, ghost n: nat)
      requires Valid()
      modifies `usedIdx, `busy, `trace
      ensures more == (old(trace).queue != []) && (!more || panicked ==> Now() == old(Now()))
      ensures panicked ==> more
      ensures more ==> && n in old(trace).live && |info| == NUM && old(trace).live[n].head < NUM
                       && (panicked <==> info[old(trace).live[n].head].status != 0)
                       && n !in old(trace).queue[1..]
      ensures more ==> n == old(trace).queue[0] && n in old(trace).live && n in old(trace).completed
      ensures more && !panicked ==> && busy == old(busy) - {old(trace).live[n].buf}
                                    && trace == Moved(old(trace), n, Seen).(seen := trace.seen,
                                                                queue := old(trace).queue[1..])
      ensures Valid()
    {
      ghost var v := Now();
      Sizes(v);
      IntrFacts(v);
      panicked := false;
      if usedIdx == devIdx {
        return false, false, 0;
      }
      more := true;
      n := trace.queue[0];
      var id := used[usedIdx % NUM];
      if info[id].status != 0 {
        panicked := true;
        return;
      }
      var busy', idx' := busy - {info[id].buf}, (usedIdx + 1) % UINT16;
      ghost var trace' := Moved(trace, n, Seen).(seen := trace.seen + 1, queue := trace.queue[1..]);
      ghost var v' := v.(busy := busy', usedIdx := idx', t := trace');
      Handled(v, n, v');
      busy, usedIdx, trace := busy', idx', trace';
      assert Now() == v';
    }

    /** virtio_disk_intr: handles all that the device has put on the used ring. */
    method Intr() returns (panicked: bool)
      requires Valid()
      modifies `usedIdx, `busy, `trace
      ensures Valid() && (!panicked ==> trace.queue == []) && Handles(old(trace), trace, info)
      ensures panicked ==> exists n :: n in trace.queue && n in trace.live && trace.live[n].head < |info|
                                       && info[trace.live[n].head].status != 0
    {
      var more := true;
      while more
        invariant Valid() && (!more ==> trace.queue == []) && Handles(old(trace), trace, info)
        decreases |trace.queue|, more
      {
        ghost var n, t := 0, trace;
        more, panicked, n := IntrOne();
        if panicked {
          assert n in trace.queue && n in trace.live;
          return;
        }
        if more {
          HandlesOne(old(trace), t, n, trace, info);
        }
      }
      panicked := false;
    }

    /** The end of virtio_disk_rw for request n, once b->disk is 0. */
    method Finish(head: nat, ghost n: nat) returns (ok: bool)
      requires Valid() && n in trace.live && head == trace.live[n].head && trace.live[n].buf !in busy
      modifies `free, `desc, `info, `trace
      ensures ok && Valid() && n in old(trace).completed && trace.live == old(trace).live - {n}
      ensures trace == old(trace).(live := trace.live, user := trace.user)
      ensures var r := old(trace).live[n];
        && r.buf in data && Transfer(n, r.write, r.blockno, data[r.buf]) in trace.log
        && (r.write ==> data[r.buf] == r.sent)
      ensures var r := old(trace).live[n];
        && |old(free)| == NUM && r.head < NUM && r.data < NUM && r.status < NUM
        && free == old(free)[r.head := true][r.data := true][r.status := true]
    {
      ghost var v, r := Now(), trace.live[n];
      Sizes(v);
      HeadInRange(v, n);
      FinishFacts(v, n);
      info := info[head := Info(0, info[head].status)];
      ok := FreeChain(head, r);
      ghost var trace' := trace.(live := trace.live - {n}, user := trace.user - Three(r));
      ghost var v' := v.(free := free, desc := desc, info := info, t := trace');
      Finished(v, n, v');
      trace := trace';
      assert Now() == v';
    }
  }

  /** Some of the requests that were in the used ring have been seen; those that are not in it any
      more are the seen ones. */
  ghost predicate Handles(t: Trace, t': Trace, info: seq<Info>) {
    && t'.live.Keys == t.live.Keys && t' == t.(live := t'.live, queue := t'.queue, seen := t'.seen)
    && (forall n :: n in t'.queue ==> n in t.queue)
    && (forall n :: n in t.queue && n !in t'.queue ==>
          n in t.live && t.live[n].head < |info| && info[t.live[n].head].status == 0)
    && forall n :: n in t.live ==>
         t'.live[n] == if n in t.queue && n !in t'.queue then t.live[n].(stage := Seen) else t.live[n]
  }

  lemma HandlesOne(t0: Trace, t: Trace, n: nat, t': Trace, info: seq<Info>)
    requires Handles(t0, t, info) && t.queue != [] && n == t.queue[0] && n in t.live
    requires n !in t.queue[1..] && t.live[n].head < |info| && info[t.live[n].head].status == 0
    requires t' == Moved(t, n, Seen).(seen := t'.seen, queue := t.queue[1..])
    ensures Handles(t0, t', info)
  {
    assert t.queue == [n] + t.queue[1..];
  }

  lemma HandledBuffer(v: View, n: nat)
    requires Good(v) && n in v.t.live && v.t.live[n].stage == Seen
    ensures v.t.live[n].buf !in v.busy
  {
    assert Open(0);
  }

  /** What was transferred last for a block is on the disk. */
  lemma {:induction false} OnDisk(plate: seq<Block>, log: seq<Transfer>, k: nat)
    requires Right(plate, log) && k < |log|
    requires forall j :: k < j < |log| && log[j].write ==> log[j].blockno != log[k].blockno
    ensures After(plate, log)[log[k].blockno] == log[k].block
  {
    var n := |log| - 1;
    var front := log[..n];
    assert Right(plate, front) by {
      assert forall i :: 0 <= i < n ==> front[..i] == log[..i];
    }
    if k < n {
      OnDisk(plate, front, k);
    } else {
      assert front == log[..k];
    }
  }

  /** In every state that calls lead to: the block of a transfer is on the disk, unless a later
      transfer has written to it; and a request has one transfer at most. */
  lemma TransferHolds(v: View, k: nat)
    requires Good(v) && k < |v.t.log|
    ensures var x := v.t.log[k];
      && x.blockno < |v.plate|
      && (v.plate[x.blockno] == x.block
          || exists j :: k < j < |v.t.log| && v.t.log[j].write && v.t.log[j].blockno == x.blockno)
      && forall j :: 0 <= j < |v.t.log| && v.t.log[j].n == x.n ==> j == k
  {
    assert Open(0);
    if forall j :: k < j < |v.t.log| && v.t.log[j].write ==> v.t.log[j].blockno != v.t.log[k].blockno {
      OnDisk(v.t.plate, v.t.log, k);
    }
  }

  /** The trace with request n at another stage. */
  ghost function Moved(t: Trace, n: nat, stage: Stage): Trace
    requires n in t.live
  {
    t.(live := t.live[n := t.live[n].(stage := stage)])
  }

  lemma HeadInRange(v: View, n: nat)
    requires Good(v) && n in v.t.live
    ensures v.t.live[n].head < NUM
  {
    assert Open(0);
    assert Placed(v.desc, v.t.live[n], v.t.user, n);
  }

  // ---- the device takes a chain

  lemma PopFacts(v: View)
    requires Good(v)
    ensures v.popIdx == v.availIdx <==> v.t.popped == v.t.posted
    ensures v.t.popped <= v.t.posted
    ensures v.t.popped < v.t.posted ==> && v.t.popped in v.t.live && |v.avail| == NUM
                                        && v.avail[v.popIdx % NUM] == v.t.live[v.t.popped].head
  {
    assert Open(0);
    FewPosted(v.free, v.desc, v.t.live, v.t.user, v.t.popped, v.t.posted);
    Wraps(v.t.popped);
    SameIdx(v.t.popped, v.t.posted);
  }

  lemma SameIdx(a: nat, b: nat)
    requires a <= b < a + UINT16
    ensures a % UINT16 == b % UINT16 <==> a == b
  {
  }

  /** A request that moves on to another stage keeps its descriptors. */
  lemma MovedPartition(free: seq<bool>, desc: seq<Desc>, live: map<nat, Request>, user: map<nat, nat>, n: nat,
                       stage: Stage, live': map<nat, Request>)
    requires Partition(free, desc, live, user) && n in live && live' == live[n := live[n].(stage := stage)]
    ensures Partition(free, desc, live', user)
  {
    SameNumber(live, n, live');
    forall m | m in live'
      ensures Placed(desc, live'[m], user, m)
    {
      assert Placed(desc, live[m], user, m);
    }
    forall i | i in user
      ensures i < NUM && user[i] in live' && i in Three(live'[user[i]])
    {
      assert Three(live'[user[i]]) == Three(live[user[i]]);
    }
  }

  lemma SameNumber(live: map<nat, Request>, n: nat, live': map<nat, Request>)
    requires n in live && n in live' && live' == live[n := live'[n]]
    ensures |live'| == |live|
  {
    assert live'.Keys == live.Keys;
    assert |live'| == |live'.Keys| && |live| == |live.Keys|;
  }

  lemma ChainFacts(v: View, n: nat)
    requires Good(v) && n in v.t.live
    ensures |v.desc| == |v.ops| == |v.info| == NUM && Proper(v.t.live[n]) && Chained(v.desc, v.t.live[n])
    ensures Carried(v.t.live[n], n, v.info, v.ops, v.data, v.t.log)
  {
    assert Open(0);
    assert Placed(v.desc, v.t.live[n], v.t.user, n);
  }

  /** What the device makes of a command and the descriptor of the block. */
  ghost predicate Served(op: Command, d: Desc, fail: bool, data: map<nat, Block>, plate: seq<Block>, status: nat,
                         data': map<nat, Block>, plate': seq<Block>) {
    var b := op.sector / SECTORS;
    if fail || b >= |plate| then status == 1 && data' == data && plate' == plate
    else if op.sector % SECTORS != 0 || d.len != BSIZE || !d.addr.Data? || d.addr.buf !in data
      then status == 2 && data' == data && plate' == plate
    else if op.typ == IN && d.flags / WRITE % 2 == 1
      then status == 0 && data' == data[d.addr.buf := plate[b]] && plate' == plate
    else if op.typ == OUT && d.flags / WRITE % 2 == 0
      then status == 0 && data' == data && plate' == plate[b := data[d.addr.buf]]
    else status == 2 && data' == data && plate' == plate
  }

  lemma ServeMoves(v: View, n: nat, fail: bool, status: nat, data': map<nat, Block>, plate': seq<Block>)
    requires n in v.t.live && |v.desc| == |v.ops| == |v.info| == NUM
    requires Proper(v.t.live[n]) && Chained(v.desc, v.t.live[n])
    requires Carried(v.t.live[n], n, v.info, v.ops, v.data, v.t.log)
    requires Served(v.ops[v.t.live[n].head], v.desc[v.t.live[n].data], fail, v.data, v.plate, status, data', plate')
    ensures var r := v.t.live[n];
      && (status == 0 <==> !fail && r.blockno < |v.plate|)
      && r.buf in v.data && r.buf in data' && (r.write ==> v.data[r.buf] == r.sent)
      && if status != 0 then data' == v.data && plate' == v.plate
         else if r.write then plate' == v.plate[r.blockno := v.data[r.buf]] && data' == v.data
         else plate' == v.plate && data' == v.data[r.buf := v.plate[r.blockno]]
  {
    var r := v.t.live[n];
    assert r.blockno * SECTORS / SECTORS == r.blockno && r.blockno * SECTORS % SECTORS == 0;
  }

  lemma SectorOf(blockno: nat)
    ensures blockno * SECTORS % 0x1_0000_0000 == blockno % 0x8000_0000 * SECTORS
  {
    var q, b := blockno / 0x8000_0000, blockno % 0x8000_0000;
    assert blockno * 2 == q * 0x1_0000_0000 + b * 2;
  }

  /** A request that moves on before it is handled, with no transfer. */
  lemma CarStays(v: View, n: nat, v': View)
    requires CarOk(v) && n in v.t.live && v'.ops == v.ops && v'.data == v.data && v'.t.log == v.t.log
    requires n in v'.t.live && v'.t.live == v.t.live[n := v'.t.live[n]] && |v'.info| == NUM
    requires v'.t.live[n] == v.t.live[n].(stage := v'.t.live[n].stage)
    requires forall m :: m in v.t.live && m != n && v.t.live[m].head < NUM == |v.info| ==>
      v'.info[v.t.live[m].head].status == v.info[v.t.live[m].head].status
    requires v'.t.live[n].stage == Seen ==>
      v.t.live[n].stage == InUsed && v.t.live[n].head < NUM == |v.info| && v.info[v.t.live[n].head].status == 0
    requires v'.t.live[n].stage == InUsed ==>
      v.t.live[n].head < NUM && v'.info[v.t.live[n].head].status != 0
    ensures CarOk(v')
  {
    assert Open(0);
    forall m | m in v'.t.live
      ensures Carried(v'.t.live[m], m, v'.info, v'.ops, v'.data, v'.t.log)
    {
      assert Carried(v.t.live[m], m, v.info, v.ops, v.data, v.t.log);
    }
  }

  /** Requests that come and go, and move on, without a transfer. */
  lemma LogStays(v: View, n: nat, v': View)
    requires LogOk(v) && v'.plate == v.plate && v'.t.plate == v.t.plate && v'.t.log == v.t.log
    requires v.t.posted <= v'.t.posted
    requires n in v'.t.live && n in v.t.live && v.t.live[n].stage in {InUsed, Seen} ==>
      v'.t.live[n].stage in {InUsed, Seen}
    requires n in v'.t.live && n !in v.t.live ==> n >= v.t.posted
    requires forall m :: m in v'.t.live && m != n ==> m in v.t.live && v'.t.live[m] == v.t.live[m]
    ensures LogOk(v')
  {
    assert Open(0);
  }

  lemma Popped(v: View, n: nat, v': View)
    requires Good(v) && n == v.t.popped < v.t.posted && n in v.t.live && |v.info| == NUM
    requires v' == v.(popIdx := (v.popIdx + 1) % UINT16, t := Moved(v.t, n, AtDevice).(popped := n + 1))
    ensures Good(v')
  {
    NextIdx(v.popIdx, n);
    assert AvOk(v') && v.t.live[n].stage == InAvail by {
      assert Open(0);
      AvailPopped(v.t.live, v.avail, v.availIdx, v.t.posted, n, v'.t.live, v'.t.popped);
    }
    PartStays(v, n, AtDevice, v');
    UsedStays(v, n, v');
    BufStays(v, n, AtDevice, v');
    CarStays(v, n, v');
    LogStays(v, n, v');
  }

  lemma AvailPopped(live: map<nat, Request>, avail: seq<nat>, availIdx: nat, posted: nat, n: nat,
                    live': map<nat, Request>, popped': nat)
    requires
      && AvailOk(live, avail, availIdx, posted, n) && n in live && n < posted && popped' == n + 1
      && live' == live[n := live[n].(stage := AtDevice)]
    ensures AvailOk(live', avail, availIdx, posted, popped')
  {
  }

  lemma BuffersMoved(live: map<nat, Request>, info: seq<Info>, busy: set<nat>, completed: set<nat>, n: nat,
                     live': map<nat, Request>, info': seq<Info>, busy': set<nat>, completed': set<nat>)
    requires Buffers(live, info, busy, completed) && n in live && n in live' && live' == live[n := live'[n]]
    requires live'[n] == live[n].(stage := live'[n].stage) && completed <= completed' && |info'| == NUM
    requires forall i :: 0 <= i < NUM ==> info'[i].buf == info[i].buf
    requires busy' == if live'[n].stage == Seen then busy - {live[n].buf} else busy
    requires live[n].stage != Seen && (live'[n].stage in {InUsed, Seen} ==> n in completed')
    ensures Buffers(live', info', busy', completed')
  {
  }

  // ---- the device is done

  lemma FewDone(free: seq<bool>, desc: seq<Desc>, live: map<nat, Request>, user: map<nat, nat>, queue: seq<nat>)
    requires Partition(free, desc, live, user) && (forall j :: 0 <= j < |queue| ==> queue[j] in live)
    requires forall j, k :: 0 <= j < k < |queue| ==> queue[j] != queue[k]
    ensures |queue| <= 2
  {
    var s := Members(queue);
    Subsets(s, live.Keys);
    assert |live.Keys| == |live|;
  }

  ghost function Members(queue: seq<nat>): (s: set<nat>)
    requires forall j, k :: 0 <= j < k < |queue| ==> queue[j] != queue[k]
    ensures |s| == |queue| && forall x :: x in s <==> x in queue
  {
    if queue == [] then {} else Members(queue[1..]) + {queue[0]}
  }

  lemma Completed(v: View, n: nat, id: nat, status: nat, v': View)
    requires
      && Good(v) && n in v.t.live && v.t.live[n].stage == AtDevice && id == v.t.live[n].head < NUM
      && |v.info| == |v.used| == NUM
    requires v' == v.(info := v.info[id := Info(v.info[id].buf, status)],
                      used := v.used[v.devIdx % NUM := id], devIdx := (v.devIdx + 1) % UINT16,
                      data := v'.data, plate := v'.plate,
                      t := Moved(v.t, n, InUsed).(done := v.t.done + 1, queue := v.t.queue + [n],
                                                  completed := v.t.completed + {n}, log := v'.t.log))
    requires Moves(v, n, status, v')
    ensures Good(v')
  {
    QueueIsShort(v);
    CompletedUsed(v, n, v');
    PartStays(v, n, InUsed, v');
    AvailStays(v, n, v');
    BufStays(v, n, InUsed, v');
    if status == 0 {
      CompletedCar(v, n, v');
      CompletedLog(v, n, v');
    } else {
      OtherHeads(v, n);
      CarStays(v, n, v');
      LogStays(v, n, v');
    }
  }

  /** What a completion does to buffers and disk. */
  ghost predicate Moves(v: View, n: nat, status: nat, v': View)
    requires n in v.t.live
  {
    var r := v.t.live[n];
    if status != 0 then v'.data == v.data && v'.plate == v.plate && v'.t.log == v.t.log
    else
      && r.buf in v.data && r.buf in v'.data && r.blockno < |v.plate|
      && v'.t.log == v.t.log + [Transfer(n, r.write, r.blockno, v'.data[r.buf])]
      && if r.write then v'.plate == v.plate[r.blockno := v.data[r.buf]] && v'.data == v.data
         else v'.plate == v.plate && v'.data == v.data[r.buf := v.plate[r.blockno]]
  }

  lemma OtherHeads(v: View, n: nat)
    requires PartOk(v) && n in v.t.live
    ensures forall m :: m in v.t.live && m != n ==> v.t.live[m].head != v.t.live[n].head
  {
    assert Open(0);
    forall m | m in v.t.live && m != n
      ensures v.t.live[m].head != v.t.live[n].head
    {
      assert Placed(v.desc, v.t.live[m], v.t.user, m) && Placed(v.desc, v.t.live[n], v.t.user, n);
    }
  }

  lemma CompletedCar(v: View, n: nat, v': View)
    requires PartOk(v) && BufOk(v) && CarOk(v) && n in v.t.live && v.t.live[n].head < NUM && |v.info| == NUM
    requires Moves(v, n, 0, v') && v'.ops == v.ops && v'.t.live == v.t.live[n := v.t.live[n].(stage := InUsed)]
    requires v'.info == v.info[v.t.live[n].head := Info(v.info[v.t.live[n].head].buf, 0)]
    ensures CarOk(v')
  {
    OtherHeads(v, n);
    OtherBuffers(v, n);
    assert Carriage(v.t.live, v.info, v.ops, v.data, v.t.log) by {
      assert Open(0);
    }
    var r := v.t.live[n];
    forall m | m in v'.t.live
      ensures Carried(v'.t.live[m], m, v'.info, v'.ops, v'.data, v'.t.log)
    {
      assert Carried(v.t.live[m], m, v.info, v.ops, v.data, v.t.log);
      if m == n {
        assert Transfer(n, r.write, r.blockno, v'.data[r.buf]) == v'.t.log[|v.t.log|];
      } else {
        StillCarried(v.t.live[m], m, v.info, v.ops, v.data, v.t.log, v'.info, v'.data, v'.t.log, r);
      }
    }
  }

  lemma OtherBuffers(v: View, n: nat)
    requires BufOk(v) && n in v.t.live
    ensures forall m :: m in v.t.live && m != n ==> v.t.live[m].buf != v.t.live[n].buf
  {
    assert Open(0);
  }

  lemma StillCarried(x: Request, m: nat, info: seq<Info>, ops: seq<Command>, data: map<nat, Block>, log: seq<Transfer>,
                     info': seq<Info>, data': map<nat, Block>, log': seq<Transfer>, r: Request)
    requires |info| == |info'| == |ops| == NUM && Carried(x, m, info, ops, data, log)
    requires r.head < NUM && info' == info[r.head := info'[r.head]] && x.head != r.head && x.buf != r.buf
    requires x.buf in data' && (x.buf in data ==> data'[x.buf] == data[x.buf]) && log <= log'
    ensures Carried(x, m, info', ops, data', log')
  {
    var tr := Transfer(m, x.write, x.blockno, data[x.buf]);
    if tr in log {
      var k :| 0 <= k < |log| && log[k] == tr;
      assert log'[k] == tr;
    }
  }

  lemma CompletedLog(v: View, n: nat, v': View)
    requires LogOk(v) && AvOk(v) && n in v.t.live && v.t.live[n].stage == AtDevice && Moves(v, n, 0, v')
    requires v'.t.live == v.t.live[n := v.t.live[n].(stage := InUsed)]
    requires v'.t.posted == v.t.posted && v'.t.plate == v.t.plate
    ensures LogOk(v')
  {
    assert Open(0);
    var log := v.t.log;
    assert v'.t.log[..|log|] == log;
    forall k | 0 <= k < |log|
      ensures v'.t.log[..k] == log[..k] && log[k].n != n
    {
    }
  }

  lemma QueueIsShort(v: View)
    requires PartOk(v) && UsOk(v)
    ensures |v.t.queue| <= 2
  {
    assert Open(0);
    UsedQueue(v.free, v.desc, v.t.user, v.t.live, v.used, v.devIdx, v.usedIdx, v.t.done, v.t.seen, v.t.queue);
  }

  lemma CompletedUsed(v: View, n: nat, v': View)
    requires UsOk(v) && |v.t.queue| <= 2 && n in v.t.live && v.t.live[n].stage == AtDevice && |v.used| == NUM
    requires
      && v'.used == v.used[v.devIdx % NUM := v.t.live[n].head] && v'.devIdx == (v.devIdx + 1) % UINT16
      && v'.usedIdx == v.usedIdx
    requires
      && v'.t.live == v.t.live[n := v.t.live[n].(stage := InUsed)] && v'.t.done == v.t.done + 1
      && v'.t.queue == v.t.queue + [n]
    requires v'.t.seen == v.t.seen
    ensures UsOk(v')
  {
    assert Open(0);
    UsedCompleted(v.t.live, v.used, v.devIdx, v.usedIdx, v.t.done, v.t.seen, v.t.queue, n, v'.t.live, v'.used,
                  v'.devIdx, v'.t.done, v'.t.queue);
  }

  lemma UsedQueue(free: seq<bool>, desc: seq<Desc>, user: map<nat, nat>, live: map<nat, Request>, used: seq<nat>,
                  devIdx: nat, usedIdx: nat, done: nat, seen: nat, queue: seq<nat>)
    requires Partition(free, desc, live, user) && UsedOk(live, used, devIdx, usedIdx, done, seen, queue)
    ensures |queue| <= 2
  {
    forall j | 0 <= j < |queue|
      ensures queue[j] in live
    {
      assert Queued(live, used, seen, queue, j);
    }
    FewDone(free, desc, live, user, queue);
  }

  lemma UsedCompleted(live: map<nat, Request>, used: seq<nat>, devIdx: nat, usedIdx: nat, done: nat, seen: nat,
                      queue: seq<nat>, n: nat, live': map<nat, Request>, used': seq<nat>, devIdx': nat, done': nat,
                      queue': seq<nat>)
    requires
      && UsedOk(live, used, devIdx, usedIdx, done, seen, queue) && |queue| <= 2 && n in live
      && live[n].stage == AtDevice
    requires
      && live' == live[n := live[n].(stage := InUsed)] && used' == used[devIdx % NUM := live[n].head]
      && devIdx' == (devIdx + 1) % UINT16
    requires done' == done + 1 && queue' == queue + [n]
    ensures UsedOk(live', used', devIdx', usedIdx, done', seen, queue')
  {
    Wraps(done);
    forall j | 0 <= j < |queue'|
      ensures Queued(live', used', seen, queue', j) && (j < |queue| ==> queue'[j] != n)
    {
      if j < |queue| {
        Apart(seen + j, done);
        assert Queued(live, used, seen, queue, j);
      }
    }
  }

  // ---- the interrupt

  lemma IntrFacts(v: View)
    requires Good(v)
    ensures v.usedIdx == v.devIdx <==> v.t.queue == []
    ensures v.t.queue != [] ==>
      && v.t.queue[0] in v.t.live && v.t.queue[0] in v.t.completed && |v.used| == |v.info| == NUM
      && v.used[v.usedIdx % NUM] == v.t.live[v.t.queue[0]].head < NUM
      && v.info[v.t.live[v.t.queue[0]].head].buf == v.t.live[v.t.queue[0]].buf
      && v.t.queue[0] !in v.t.queue[1..]
  {
    assert Open(0);
    UsedQueue(v.free, v.desc, v.t.user, v.t.live, v.used, v.devIdx, v.usedIdx, v.t.done, v.t.seen, v.t.queue);
    SameIdx(v.t.seen, v.t.done);
    Wraps(v.t.seen);
    if v.t.queue != [] {
      assert Queued(v.t.live, v.used, v.t.seen, v.t.queue, 0);
    }
  }

  lemma Handled(v: View, n: nat, v': View)
    requires
      && Good(v) && v.t.queue != [] && n == v.t.queue[0] && n in v.t.live && n in v.t.completed
      && |v.info| == |v.used| == NUM && v.t.live[n].head < NUM && v.info[v.t.live[n].head].status == 0
    requires v' == v.(busy := v.busy - {v.t.live[n].buf}, usedIdx := (v.usedIdx + 1) % UINT16,
                      t := Moved(v.t, n, Seen).(seen := v.t.seen + 1, queue := v.t.queue[1..]))
    ensures Good(v')
  {
    QueueHandled(v, n, v');
    PartStays(v, n, Seen, v');
    AvailStays(v, n, v');
    BufStays(v, n, Seen, v');
    CarStays(v, n, v');
    LogStays(v, n, v');
  }

  lemma QueueHandled(v: View, n: nat, v': View)
    requires UsOk(v) && v.t.queue != [] && n == v.t.queue[0] && n in v.t.live && |v.used| == NUM
    requires v' == v.(busy := v'.busy, usedIdx := (v.usedIdx + 1) % UINT16,
                      t := Moved(v.t, n, Seen).(seen := v.t.seen + 1, queue := v.t.queue[1..]))
    ensures UsOk(v') && v.t.live[n].stage == InUsed
  {
    assert Open(0);
    assert Queued(v.t.live, v.used, v.t.seen, v.t.queue, 0);
    UsedHandled(v.t.live, v.used, v.devIdx, v.usedIdx, v.t.done, v.t.seen, v.t.queue, n, v'.t.live, v'.usedIdx,
                v'.t.seen, v'.t.queue);
  }

  lemma UsedHandled(live: map<nat, Request>, used: seq<nat>, devIdx: nat, usedIdx: nat, done: nat, seen: nat,
                    queue: seq<nat>, n: nat, live': map<nat, Request>, usedIdx': nat, seen': nat, queue': seq<nat>)
    requires UsedOk(live, used, devIdx, usedIdx, done, seen, queue) && queue != [] && n == queue[0] && n in live
    requires
      && live' == live[n := live[n].(stage := Seen)] && usedIdx' == (usedIdx + 1) % UINT16 && seen' == seen + 1
      && queue' == queue[1..]
    ensures UsedOk(live', used, devIdx, usedIdx', done, seen', queue')
  {
    Wraps(seen);
    forall j | 0 <= j < |queue'|
      ensures Queued(live', used, seen', queue', j)
    {
      assert Queued(live, used, seen, queue, j + 1);
      assert queue'[j] == queue[j + 1] && queue[0] != queue[j + 1] && seen + (j + 1) == seen' + j;
    }
    assert queue == [n] + queue';
  }

  // ---- the request returns

  lemma FinishFacts(v: View, n: nat)
    requires Good(v) && n in v.t.live && v.t.live[n].buf !in v.busy
    ensures
      && |v.free| == |v.desc| == NUM && n in v.t.completed && Proper(v.t.live[n]) && Chained(v.desc, v.t.live[n])
      && v.t.live[n].stage == Seen
    ensures var r := v.t.live[n]; !v.free[r.head] && !v.free[r.data] && !v.free[r.status]
    ensures |v.info| == |v.ops| == NUM && Carried(v.t.live[n], n, v.info, v.ops, v.data, v.t.log)
  {
    assert Open(0);
    assert Placed(v.desc, v.t.live[n], v.t.user, n);
  }

  lemma Finished(v: View, n: nat, v': View)
    requires
      && Good(v) && n in v.t.live && v.t.live[n].stage == Seen && |v.free| == |v.desc| == |v.info| == NUM
      && Proper(v.t.live[n])
    requires var r := v.t.live[n];
      v' == v.(free := v.free[r.head := true][r.data := true][r.status := true],
               desc := v.desc[r.head := NODESC][r.data := NODESC][r.status := NODESC],
               info := v.info[r.head := Info(0, v.info[r.head].status)],
               t := v.t.(live := v.t.live - {n}, user := v.t.user - Three(r)))
    ensures Good(v')
  {
    var r := v.t.live[n];
    assert PartOk(v') && BufOk(v') by {
      assert Open(0);
      FinishedPartition(v.free, v.desc, v.t.live, v.t.user, n, r, v'.free, v'.desc, v'.t.live, v'.t.user);
      FinishedBuffers(v.free, v.desc, v.t.live, v.t.user, v.info, v.busy, v.t.completed, n, r, v'.info, v'.t.live);
    }
    AvailStays(v, n, v');
    UsedStays(v, n, v');
    FinishedCar(v, n, v');
    LogStays(v, n, v');
  }

  lemma FinishedCar(v: View, n: nat, v': View)
    requires CarOk(v) && n in v.t.live && |v.info| == NUM && v.t.live[n].head < NUM
    requires v'.t.live == v.t.live - {n} && v'.ops == v.ops && v'.data == v.data && v'.t.log == v.t.log
    requires v'.info == v.info[v.t.live[n].head := Info(0, v.info[v.t.live[n].head].status)]
    ensures CarOk(v')
  {
    assert Open(0);
    forall m | m in v'.t.live
      ensures Carried(v'.t.live[m], m, v'.info, v'.ops, v'.data, v'.t.log)
    {
      assert Carried(v.t.live[m], m, v.info, v.ops, v.data, v.t.log);
    }
  }

  lemma Stored(v: View, buf: nat, block: Block)
    requires Good(v) && forall m :: m in v.t.live ==> v.t.live[m].buf != buf
    ensures Good(v.(data := v.data[buf := block]))
  {
    var v' := v.(data := v.data[buf := block]);
    assert CarOk(v') by {
      assert Open(0);
      forall m | m in v.t.live
        ensures Carried(v.t.live[m], m, v.info, v.ops, v'.data, v.t.log)
      {
        assert Carried(v.t.live[m], m, v.info, v.ops, v.data, v.t.log);
      }
    }
    assert PartOk(v') && AvOk(v') && UsOk(v') && BufOk(v') && LogOk(v') by {
      assert Open(0);
    }
  }

  lemma FinishedPartition(free: seq<bool>, desc: seq<Desc>, live: map<nat, Request>, user: map<nat, nat>, n: nat,
                          r: Request, free': seq<bool>, desc': seq<Desc>, live': map<nat, Request>,
                          user': map<nat, nat>)
    requires
      && Partition(free, desc, live, user) && n in live && r == live[n] && Proper(r) && live' == live - {n}
      && user' == user - Three(r)
    requires free' == free[r.head := true][r.data := true][r.status := true]
    requires desc' == desc[r.head := NODESC][r.data := NODESC][r.status := NODESC]
    ensures Partition(free', desc', live', user')
  {
    assert Placed(desc, r, user, n);
    ThreeMore(free, free', r.head, r.data, r.status);
    OneFewer(live, n, live');
    forall m | m in live'
      ensures Placed(desc', live'[m], user', m)
    {
      FinishedPlaced(desc, user, n, r, desc', user', m, live[m]);
    }
    FinishedUser(free, live, user, n, r, free', live', user');
  }

  lemma ThreeMore(free: seq<bool>, free': seq<bool>, h: nat, d: nat, s: nat)
    requires
      && |free| == NUM && h < NUM && d < NUM && s < NUM && h != d && h != s && d != s && !free[h] && !free[d]
      && !free[s]
    requires free' == free[h := true][d := true][s := true]
    ensures FreeCount(free') == FreeCount(free) + 3
  {
    FreeCountUpdate(free, h, true);
    FreeCountUpdate(free[h := true], d, true);
    FreeCountUpdate(free[h := true][d := true], s, true);
  }

  lemma OneFewer(live: map<nat, Request>, n: nat, live': map<nat, Request>)
    requires n in live && live' == live - {n}
    ensures |live'| == |live| - 1
  {
    assert live'.Keys == live.Keys - {n};
    assert |live'| == |live'.Keys| && |live| == |live.Keys|;
  }

  lemma FinishedPlaced(desc: seq<Desc>, user: map<nat, nat>, n: nat, r: Request, desc': seq<Desc>, user': map<nat, nat>,
                       m: nat, x: Request)
    requires |desc| == NUM && Placed(desc, r, user, n) && Placed(desc, x, user, m) && m != n && user' == user - Three(r)
    requires desc' == desc[r.head := NODESC][r.data := NODESC][r.status := NODESC]
    ensures Placed(desc', x, user', m)
  {
  }

  lemma FinishedUser(free: seq<bool>, live: map<nat, Request>, user: map<nat, nat>, n: nat, r: Request,
                     free': seq<bool>, live': map<nat, Request>, user': map<nat, nat>)
    requires |free| == NUM && n in live && r == live[n] && Proper(r) && live' == live - {n} && user' == user - Three(r)
    requires free' == free[r.head := true][r.data := true][r.status := true]
    requires forall i :: 0 <= i < NUM ==> (free[i] <==> i !in user)
    requires forall i :: i in user ==> i < NUM && user[i] in live && i in Three(live[user[i]])
    ensures forall i :: 0 <= i < NUM ==> (free'[i] <==> i !in user')
    ensures forall i :: i in user' ==> i < NUM && user'[i] in live' && i in Three(live'[user'[i]])
  {
    forall i | i in user'
      ensures i < NUM && user'[i] in live' && i in Three(live'[user'[i]])
    {
      assert user[i] in live && i in Three(live[user[i]]);
    }
  }

  lemma FinishedBuffers(free: seq<bool>, desc: seq<Desc>, live: map<nat, Request>, user: map<nat, nat>, info: seq<Info>,
                        busy: set<nat>, completed: set<nat>, n: nat, r: Request, info': seq<Info>,
                        live': map<nat, Request>)
    requires
      && Partition(free, desc, live, user) && Buffers(live, info, busy, completed) && n in live && r == live[n]
      && r.head < NUM && live' == live - {n}
    requires info' == info[r.head := Info(0, info[r.head].status)]
    ensures Buffers(live', info', busy, completed)
  {
    forall m | m in live'
      ensures live[m].head != r.head
    {
      assert Placed(desc, live[m], user, m) && Placed(desc, r, user, n);
    }
  }

  lemma Sizes(v: View)
    requires Good(v)
    ensures |v.free| == |v.desc| == |v.info| == |v.avail| == |v.used| == |v.ops| == NUM
  {
    assert Open(0);
  }

  /** Three different free descriptors were taken. */
  ghost predicate Three3(free0: seq<bool>, free: seq<bool>, h: nat, d: nat, s: nat) {
    && |free0| == NUM && h < NUM && d < NUM && s < NUM && h != d && h != s && d != s && free0[h] && free0[d] && free0[s]
    && free == free0[h := false][d := false][s := false]
  }

  lemma TookThree(free0: seq<bool>, free: seq<bool>, idx: seq<nat>)
    requires
      && Minus(free0, free, idx) && |idx| == 3 && Distinct(idx)
      && forall k :: 0 <= k < 3 ==> idx[k] < NUM && free0[idx[k]]
    ensures Three3(free0, free, idx[0], idx[1], idx[2])
  {
    DistinctAt(idx, 1);
    DistinctAt(idx, 2);
    forall x | 0 <= x < NUM
      ensures free[x] == free0[idx[0] := false][idx[1] := false][idx[2] := false][x]
    {
      assert x in idx <==> x == idx[0] || x == idx[1] || x == idx[2];
    }
  }

  // ---- posting

  lemma Refused(v: View, desc: seq<Desc>)
    requires
      && Good(v) && |desc| == NUM && |v.free| == |v.desc| == NUM
      && forall x :: 0 <= x < NUM && !v.free[x] ==> desc[x] == v.desc[x]
    ensures Good(v.(desc := desc))
  {
    var v' := v.(desc := desc);
    assert CarOk(v') && LogOk(v') by {
      assert Open(0);
    }
    assert Open(0);
    forall n | n in v.t.live
      ensures Placed(desc, v.t.live[n], v.t.user, n)
    {
      assert Placed(v.desc, v.t.live[n], v.t.user, n);
    }
  }

  lemma Posted(v: View, free: seq<bool>, r: Request, n: nat, v': View)
    requires Good(v) && Three3(v.free, free, r.head, r.data, r.status) && n == v.t.posted && r.stage == InAvail
    requires (forall m :: m in v.t.live ==> v.t.live[m].buf != r.buf)
    requires |v.desc| == |v.info| == |v.avail| == |v.ops| == NUM && r.buf in v.data && r.sent == v.data[r.buf]
    requires v' == v.(free := free, desc := v'.desc,
                      info := v.info[r.head := Info(r.buf, 0xff)], busy := v.busy + {r.buf},
                      ops := v.ops[r.head := Command(if r.write then OUT else IN, 0, r.blockno * SECTORS)],
                      avail := v.avail[v.availIdx % NUM := r.head],
                      availIdx := (v.availIdx + 1) % UINT16,
                      t := v.t.(live := v.t.live[n := r], posted := n + 1,
                                user := v.t.user[r.head := n][r.data := n][r.status := n]))
    requires Linked(v.desc, v'.desc, r)
    ensures Good(v') && n !in v.t.live
  {
    assert PartOk(v') && AvOk(v') && BufOk(v') && n !in v.t.live by {
      assert Open(0);
      FewPosted(v.free, v.desc, v.t.live, v.t.user, v.t.popped, v.t.posted);
      PostedAvail(v.t.live, v.avail, v.availIdx, v.t.posted, v.t.popped, r, v'.avail, v'.t.live, v'.t.posted,
                  v'.availIdx);
      PostedPartition(v.free, v.desc, v.t.live, v.t.user, free, v'.desc, r, n, v'.t.live, v'.t.user);
      PostedBuffers(v.t.live, v.info, v.busy, v.t.completed, v.t.user, r, n, v'.info, v'.t.live, v.free, v.desc,
                    v'.busy);
    }
    UsedStays(v, n, v');
    PostedCar(v, r, n, v');
    LogStays(v, n, v');
  }

  /** The three descriptors of a request are filled in. */
  ghost predicate Linked(desc: seq<Desc>, desc': seq<Desc>, r: Request)
    requires |desc| == NUM
  {
    && Proper(r) && |desc'| == NUM && Chained(desc', r)
    && forall i :: 0 <= i < NUM && i != r.head && i != r.data && i != r.status ==> desc'[i] == desc[i]
  }

  lemma PostedCar(v: View, r: Request, n: nat, v': View)
    requires PartOk(v) && CarOk(v) && |v.free| == |v.info| == |v.ops| == NUM && n !in v.t.live && r.stage == InAvail
    requires r.head < NUM && v.free[r.head] && r.buf in v.data && r.sent == v.data[r.buf]
    requires v'.t.live == v.t.live[n := r] && v'.data == v.data && v'.t.log == v.t.log
    requires v'.info == v.info[r.head := Info(r.buf, 0xff)]
    requires v'.ops == v.ops[r.head := Command(if r.write then OUT else IN, 0, r.blockno * SECTORS)]
    ensures CarOk(v')
  {
    assert Open(0);
    forall m | m in v'.t.live
      ensures Carried(v'.t.live[m], m, v'.info, v'.ops, v'.data, v'.t.log)
    {
      if m != n {
        assert Placed(v.desc, v.t.live[m], v.t.user, m);
        assert Carried(v.t.live[m], m, v.info, v.ops, v.data, v.t.log);
      }
    }
  }

  /** What happens to a request that is not in the used ring does not concern the ring. */
  lemma UsedStays(v: View, n: nat, v': View)
    requires UsOk(v) && v'.used == v.used && v'.devIdx == v.devIdx && v'.usedIdx == v.usedIdx
    requires v'.t.done == v.t.done && v'.t.seen == v.t.seen && v'.t.queue == v.t.queue
    requires (n in v.t.live ==> v.t.live[n].stage != InUsed) && (n in v'.t.live ==> v'.t.live[n].stage != InUsed)
    requires forall m :: m != n && m in v.t.live ==> m in v'.t.live && v'.t.live[m] == v.t.live[m]
    requires forall m :: m in v'.t.live && m != n ==> m in v.t.live
    ensures UsOk(v')
  {
    assert Open(0);
    UsedMoved(v.t.live, v.used, v.devIdx, v.usedIdx, v.t.done, v.t.seen, v.t.queue, n, v'.t.live);
  }

  /** What happens to a request that is past the avail ring does not concern the ring. */
  lemma AvailStays(v: View, n: nat, v': View)
    requires
      && AvOk(v) && v'.avail == v.avail && v'.availIdx == v.availIdx && v'.t.posted == v.t.posted
      && v'.t.popped == v.t.popped
    requires n in v.t.live && v.t.live[n].stage != InAvail && (n in v'.t.live ==> v'.t.live[n].stage != InAvail)
    requires forall m :: m != n && m in v.t.live ==> m in v'.t.live && v'.t.live[m] == v.t.live[m]
    requires forall m :: m in v'.t.live && m != n ==> m in v.t.live
    ensures AvOk(v')
  {
    assert Open(0);
    AvailMoved(v.t.live, v.avail, v.availIdx, v.t.posted, v.t.popped, n, v'.t.live);
  }

  lemma PartStays(v: View, n: nat, stage: Stage, v': View)
    requires PartOk(v) && n in v.t.live && v'.free == v.free && v'.desc == v.desc && v'.t.user == v.t.user
    requires v'.t.live == v.t.live[n := v.t.live[n].(stage := stage)]
    ensures PartOk(v')
  {
    assert Open(0);
    MovedPartition(v.free, v.desc, v.t.live, v.t.user, n, stage, v'.t.live);
  }

  lemma BufStays(v: View, n: nat, stage: Stage, v': View)
    requires
      && BufOk(v) && n in v.t.live && v.t.live[n].stage != Seen && |v.info| == |v'.info| == NUM
      && v.t.completed <= v'.t.completed
    requires
      && v'.t.live == v.t.live[n := v.t.live[n].(stage := stage)]
      && forall i :: 0 <= i < NUM ==> v'.info[i].buf == v.info[i].buf
    requires
      && v'.busy == (if stage == Seen then v.busy - {v.t.live[n].buf} else v.busy)
      && (stage in {InUsed, Seen} ==> n in v'.t.completed)
    ensures BufOk(v')
  {
    assert Open(0);
    BuffersMoved(v.t.live, v.info, v.busy, v.t.completed, n, v'.t.live, v'.info, v'.busy, v'.t.completed);
  }

  lemma PostedPartition(free0: seq<bool>, desc0: seq<Desc>, live: map<nat, Request>, user: map<nat, nat>,
                        free: seq<bool>, desc: seq<Desc>, r: Request, n: nat, live': map<nat, Request>,
                        user': map<nat, nat>)
    requires
      && Partition(free0, desc0, live, user) && Three3(free0, free, r.head, r.data, r.status)
      && Linked(desc0, desc, r)
    requires n !in live && live' == live[n := r] && user' == user[r.head := n][r.data := n][r.status := n]
    ensures Partition(free, desc, live', user')
  {
    ThreeFewer(free0, free, r.head, r.data, r.status);
    assert |live'| == |live| + 1;
    forall m | m in live'
      ensures Placed(desc, live'[m], user', m)
    {
      PostedPlaced(free0, desc0, live, user, free, desc, r, n, live', user', m);
    }
    PostedUser(free0, live, user, free, r, n, live', user');
  }

  lemma ThreeFewer(free0: seq<bool>, free: seq<bool>, h: nat, d: nat, s: nat)
    requires Three3(free0, free, h, d, s)
    ensures FreeCount(free0) == FreeCount(free) + 3
  {
    FreeCountUpdate(free0, h, false);
    FreeCountUpdate(free0[h := false], d, false);
    FreeCountUpdate(free0[h := false][d := false], s, false);
  }

  lemma PostedUser(free0: seq<bool>, live: map<nat, Request>, user: map<nat, nat>, free: seq<bool>, r: Request, n: nat,
                   live': map<nat, Request>, user': map<nat, nat>)
    requires
      && Three3(free0, free, r.head, r.data, r.status) && live' == live[n := r]
      && user' == user[r.head := n][r.data := n][r.status := n]
    requires (forall i :: 0 <= i < NUM ==> (free0[i] <==> i !in user)) && n !in live
    requires forall i :: i in user ==> i < NUM && user[i] in live && i in Three(live[user[i]])
    ensures forall i :: 0 <= i < NUM ==> (free[i] <==> i !in user')
    ensures forall i :: i in user' ==> i < NUM && user'[i] in live' && i in Three(live'[user'[i]])
  {
  }

  lemma PostedPlaced(free0: seq<bool>, desc0: seq<Desc>, live: map<nat, Request>, user: map<nat, nat>, free: seq<bool>,
                     desc: seq<Desc>, r: Request, n: nat, live': map<nat, Request>, user': map<nat, nat>, m: nat)
    requires Three3(free0, free, r.head, r.data, r.status) && |desc0| == NUM && Linked(desc0, desc, r)
    requires forall i :: 0 <= i < NUM && free0[i] ==> i !in user
    requires live' == live[n := r] && user' == user[r.head := n][r.data := n][r.status := n]
    requires m in live' && (m != n ==> Placed(desc0, live[m], user, m))
    ensures Placed(desc, live'[m], user', m)
  {
  }

  /** The numbers from a up to b. */
  ghost function Numbers(a: nat, b: nat): (s: set<nat>)
    ensures forall x :: x in s <==> a <= x < b
    ensures a <= b ==> |s| == b - a
  {
    if b <= a then {} else Numbers(a, b - 1) + {b - 1}
  }

  /** A ring never holds more entries than there are requests, which are at most two. */
  lemma FewPosted(free: seq<bool>, desc: seq<Desc>, live: map<nat, Request>, user: map<nat, nat>, popped: nat,
                  posted: nat)
    requires Partition(free, desc, live, user) && popped <= posted && forall n :: popped <= n < posted ==> n in live
    ensures |live| <= 2 && posted - popped <= 2
  {
    Subsets(Numbers(popped, posted), live.Keys);
    assert |live.Keys| == |live|;
  }

  lemma PostedAvail(live: map<nat, Request>, avail: seq<nat>, availIdx: nat, posted: nat, popped: nat, r: Request,
                    avail': seq<nat>, live': map<nat, Request>, posted': nat, availIdx': nat)
    requires posted' == posted + 1 && availIdx' == (availIdx + 1) % UINT16 && r.stage == InAvail
    requires posted - popped <= 2 && AvailOk(live, avail, availIdx, posted, popped)
    requires avail' == avail[availIdx % NUM := r.head] && live' == live[posted := r]
    ensures posted !in live && AvailOk(live', avail', availIdx', posted', popped)
  {
    Wraps(posted);
    forall n | popped <= n < posted
      ensures avail'[n % NUM] == avail[n % NUM]
    {
      Apart(n, posted);
    }
  }

  /** A request that is not in the used ring, before or after, does not concern it. */
  lemma UsedMoved(live: map<nat, Request>, used: seq<nat>, devIdx: nat, usedIdx: nat, done: nat, seen: nat,
                  queue: seq<nat>, n: nat, live': map<nat, Request>)
    requires UsedOk(live, used, devIdx, usedIdx, done, seen, queue) && (n in live ==> live[n].stage != InUsed)
    requires
      && (forall m :: m != n && m in live ==> m in live' && live'[m] == live[m])
      && (forall m :: m in live' && m != n ==> m in live)
    requires n in live' ==> live'[n].stage != InUsed
    ensures UsedOk(live', used, devIdx, usedIdx, done, seen, queue)
  {
    forall j | 0 <= j < |queue|
      ensures Queued(live', used, seen, queue, j)
    {
      assert Queued(live, used, seen, queue, j);
    }
  }

  /** A request that is past the avail ring, before and after, does not concern it. */
  lemma AvailMoved(live: map<nat, Request>, avail: seq<nat>, availIdx: nat, posted: nat, popped: nat, n: nat,
                   live': map<nat, Request>)
    requires AvailOk(live, avail, availIdx, posted, popped) && n in live && live[n].stage != InAvail
    requires
      && (forall m :: m != n && m in live ==> m in live' && live'[m] == live[m])
      && (forall m :: m in live' && m != n ==> m in live)
    requires n in live' ==> live'[n].stage != InAvail
    ensures AvailOk(live', avail, availIdx, posted, popped)
  {
  }

  lemma Wraps(n: nat)
    ensures n % UINT16 % NUM == n % NUM && (n % UINT16 + 1) % UINT16 == (n + 1) % UINT16
  {
  }

  lemma NextIdx(idx: nat, n: nat)
    requires idx == n % UINT16
    ensures (idx + 1) % UINT16 == (n + 1) % UINT16
  {
  }

  lemma Apart(n: nat, m: nat)
    requires n < m < n + NUM
    ensures n % NUM != m % NUM
  {
  }

  lemma PostedBuffers(live: map<nat, Request>, info: seq<Info>, busy: set<nat>, completed: set<nat>,
                      user: map<nat, nat>, r: Request, n: nat, info': seq<Info>, live': map<nat, Request>,
                      free: seq<bool>, desc: seq<Desc>, busy': set<nat>)
    requires
      && busy' == busy + {r.buf} && Buffers(live, info, busy, completed) && Partition(free, desc, live, user)
      && r.head < NUM && free[r.head] && r.stage == InAvail
    requires n !in live && live' == live[n := r] && info' == info[r.head := Info(r.buf, 0xff)]
    requires forall m :: m in live ==> live[m].buf != r.buf
    ensures Buffers(live', info', busy', completed)
  {
    forall m | m in live
      ensures live[m].head != r.head
    {
      assert Placed(desc, live[m], user, m);
    }
  }

  /** free is free0 without the descriptors in idx. */
  ghost predicate Minus(free0: seq<bool>, free: seq<bool>, idx: seq<nat>) {
    |free0| == |free| == NUM && forall x :: 0 <= x < NUM ==> free[x] == (free0[x] && x !in idx)
  }

  lemma OneMore(free0: seq<bool>, was: seq<bool>, idx: seq<nat>, d: nat, free: seq<bool>)
    requires Minus(free0, was, idx) && Distinct(idx) && d < NUM && was[d] && free == was[d := false]
    ensures Minus(free0, free, idx + [d]) && Distinct(idx + [d]) && free0[d]
  {
    assert (idx + [d])[..|idx|] == idx;
  }

  lemma {:induction false} NoneFree(free: seq<bool>)
    requires forall i :: 0 <= i < |free| ==> !free[i]
    ensures FreeCount(free) == 0
  {
    if free != [] {
      NoneFree(free[1..]);
    }
  }

  lemma NotLater(idx: seq<nat>, j: nat)
    requires j < |idx| && Distinct(idx)
    ensures idx[j] !in idx[j + 1..] && idx[j..] == [idx[j]] + idx[j + 1..]
  {
    DistinctAt(idx, j);
  }

  lemma AtFirst(v: View)
    requires |v.free| == |v.desc| == |v.info| == |v.ops| == |v.avail| == |v.used| == NUM && FreeCount(v.free) == NUM
    requires (forall i :: 0 <= i < NUM ==> v.free[i]) && v.availIdx == v.devIdx == v.usedIdx == v.popIdx == 0
    requires v.t == Trace(map[], map[], 0, 0, 0, 0, [], {}, v.plate, [])
    ensures Good(v)
  {
  }

  lemma AllFree()
    ensures FreeCount([true, true, true, true, true, true, true, true]) == NUM
  {
    assert FreeCount([true, true, true, true]) == 4;
    var f := [true, true, true, true, true, true, true, true];
    assert f[1..][1..][1..][1..] == [true, true, true, true];
  }
}
