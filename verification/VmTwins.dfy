/** Two memories that differ only in the capacity of their translation caches: equal calls have equal replies and leave
    them equal, so that the caches can be compared. */
module VmTwins {
  import opened Arithmetic
  import opened Words
  import opened VmScheme
  import opened VmState
  import opened VmSteps
  import opened VmStream
  import opened VmAlloc
  import opened VmTrace
  import opened Vm
  import opened VmTheorems
  import opened VmClient
  import Lru

  datatype Call =
    | Malloc(numBytes: nat)
    | Put(va: nat, val: seq<byte>)
    | Get(va: nat, size: nat)
    | Free(va: nat, size: nat)

  datatype Reply = Address(va: nat) | Result(r: int) | Value(val: seq<byte>) | Nothing

  /** What a memory amounts to. */
  datatype State = State(layout: Layout, mem: Memory, trace: seq<Lru.Op>)

  ghost predicate StateOk(s: Scheme, v: State) {
    Inv(s, v.mem, v.layout)
  }

  ghost function PagesMarked(l: Layout): set<nat> { {0} + l.frameOf.Keys }

  ghost function FramesMarked(s: Scheme, l: Layout): set<nat> { Reserved(s) + l.frameOf.Values }

  /** Are there `n` free pages and `n` free frames? */
  ghost predicate Free(s: Scheme, l: Layout, n: nat) {
    |PagesMarked(l)| + n <= s.Pages() && |FramesMarked(s, l)| + n <= s.Pages()
  }

  /** Can the call be made, and does it leave the memory in order? As written, addresses in page 0 are not put to or
      freed. */
  ghost predicate Ready(s: Scheme, v: State, c: Call)
    requires s.Ok()
  {
    match c
    case Malloc(n) =>
      s.asWritten && Free(s, v.layout, PagesFor(s, n)) ==> |PagesMarked(v.layout)| + PagesFor(s, n) <= s.Usable()
    case Put(va, _) => !InPageZero(s, va)
    case Get(va, n) => !InPageZero(s, va) && (n > 0 ==> RoomAt(s, v.layout, va, n))
    case Free(va, _) =>
      !InPageZero(s, va) && (s.PageOf(va) in v.layout.place ==> v.layout.place[s.PageOf(va)].1 == 0)
  }

  // ---- What a call does, as a relation of states

  ghost predicate Mallocked(s: Scheme, v: State, n: nat, v': State, va: nat, b: seq<nat>, fs: seq<nat>)
    requires StateOk(s, v) && StateOk(s, v')
  {
    && (va != 0 <==> n > 0 && Free(s, v.layout, PagesFor(s, n)))
    && if va == 0 then v' == v
       else
         && |b| == PagesFor(s, n) && Allocated(v.layout, b, fs, v'.layout) && va == s.AddressOf(b[0], 0)
         && FirstFit(PagesMarked(v.layout), s.Pages(), b) && FirstFit(FramesMarked(s, v.layout), s.Pages(), fs)
         && Contents(s, v'.mem, v'.layout) == Contents(s, v.mem, v.layout)[b[0] := Zeros(StreamIndex(s, |b|, 0))]
         && v'.trace == v.trace + UseAll(b)
  }

  ghost predicate DidPut(s: Scheme, v: State, va: nat, val: seq<byte>, v': State, r: int)
    requires StateOk(s, v) && StateOk(s, v')
  {
    && v'.layout == v.layout
    && r == (if s.OffsetOf(va) + |val| == 0 || RoomAt(s, v.layout, va, |val|) then 0 else -1)
    && v'.trace == v.trace + CheckOps(s, v.layout, va, PagesFor(s, |val| + s.OffsetOf(va)))
         + (if r == 0 then AccessOps(s, v.layout, s.PageOf(va), s.OffsetOf(va), |val|) else [])
    && if r == 0 && val != [] then
         Stored(Contents(s, v.mem, v.layout), Home(v.layout, s.PageOf(va)), Position(s, v.layout, va), val,
                Contents(s, v'.mem, v'.layout))
       else v'.mem == v.mem
  }

  ghost predicate Got(s: Scheme, v: State, va: nat, n: nat, v': State, val: seq<byte>)
    requires StateOk(s, v)
  {
    && v'.layout == v.layout && v'.mem == v.mem && |val| == n
    && v'.trace == v.trace + CheckOps(s, v.layout, va, PagesFor(s, n + s.OffsetOf(va)))
         + AccessOps(s, v.layout, s.PageOf(va), s.OffsetOf(va), n)
    && (n > 0 ==> Loaded(Contents(s, v.mem, v.layout), Home(v.layout, s.PageOf(va)), Position(s, v.layout, va), val))
  }

  ghost predicate Freed(s: Scheme, v: State, va: nat, n: nat, v': State)
    requires StateOk(s, v) && StateOk(s, v')
  {
    var h, k := s.PageOf(va), PagesFor(s, n);
    if n == 0 then v' == v
    else if !Accepted(s, v.layout, va, k) then v' == v.(trace := v.trace + CheckOps(s, v.layout, va, k))
    else
      && FreedPages(v.layout, h, k, v'.layout)
      && FreedBytes(Contents(s, v.mem, v.layout), v.layout.blocks[h], k, StreamIndex(s, k, 0),
                    Contents(s, v'.mem, v'.layout))
      && v'.trace == v.trace + CheckOps(s, v.layout, va, k) + DropAndUseAll(v.layout.blocks[h][..k])
  }

  /** Does the call lead from `v` to `v'`, with this reply? */
  ghost predicate Outcome(s: Scheme, v: State, c: Call, v': State, reply: Reply) {
    && StateOk(s, v) && StateOk(s, v')
    && match c
       case Malloc(n) => reply.Address? && exists b, fs :: Mallocked(s, v, n, v', reply.va, b, fs)
       case Put(va, val) => reply.Result? && DidPut(s, v, va, val, v', reply.r)
       case Get(va, n) => reply.Value? && Got(s, v, va, n, v', reply.val)
       case Free(va, n) => reply.Nothing? && Freed(s, v, va, n, v')
  }

  // ---- There is only one outcome

  /** A state is its mapping, its allocations, their bytes, the pages ever freed, and the history. */
  lemma StateUnique(s: Scheme, v: State, w: State)
    requires StateOk(s, v) && StateOk(s, w) && v.trace == w.trace
    requires v.layout.frameOf == w.layout.frameOf && v.layout.blocks == w.layout.blocks
    requires v.layout.cleared == w.layout.cleared && Contents(s, v.mem, v.layout) == Contents(s, w.mem, w.layout)
    ensures v == w
  {
    hide Mapped, Directory, Cells, FreeFramesZero, Linked, Shape, Contents, FreeCell;
    forall p | p in v.layout.place ensures v.layout.place[p] == w.layout.place[p] {
      SamePlace(v.layout, w.layout, p);
    }
    assert v.layout.place.Keys == w.layout.place.Keys;
    assert v.layout.place == w.layout.place;
    Canonical(s, v.mem, v.layout, w.mem, w.layout);
  }

  lemma MallocUnique(s: Scheme, u: State, n: nat, v: State, va: nat, b: seq<nat>, fs: seq<nat>, w: State, va': nat,
                     b': seq<nat>, fs': seq<nat>)
    requires StateOk(s, u) && StateOk(s, v) && StateOk(s, w)
    requires Mallocked(s, u, n, v, va, b, fs) && Mallocked(s, u, n, w, va', b', fs')
    ensures v == w && va == va'
  {
    hide Inv, Free, Contents, FirstFit, PagesFor, Scheme.AddressOf, Zip, StreamIndex, Zeros, UseAll;
    if va != 0 {
      FirstFitUnique(PagesMarked(u.layout), s.Pages(), b, b');
      FirstFitUnique(FramesMarked(s, u.layout), s.Pages(), fs, fs');
      StateUnique(s, v, w);
    }
  }

  lemma SchemeOk(s: Scheme, v: State)
    requires StateOk(s, v)
    ensures s.Ok()
  {
  }

  lemma OutcomeUnique(s: Scheme, u: State, c: Call, v: State, r: Reply, w: State, r': Reply)
    requires Outcome(s, u, c, v, r) && Outcome(s, u, c, w, r')
    ensures v == w && r == r'
  {
    hide Inv, Mallocked, Contents, PagesFor, CheckOps, AccessOps, DropAndUseAll, Home, Position, RoomAt, StreamIndex,
      Accepted, Scheme.PageOf, Scheme.OffsetOf;
    SchemeOk(s, u);
    match c {
      case Malloc(n) =>
        var b, fs :| Mallocked(s, u, n, v, r.va, b, fs);
        var b', fs' :| Mallocked(s, u, n, w, r'.va, b', fs');
        MallocUnique(s, u, n, v, r.va, b, fs, w, r'.va, b', fs');
      case Put(va, val) =>
        if r.r == 0 && val != [] {
          StateUnique(s, v, w);
        }
      case Get(va, n) =>
        assert n == 0 ==> r.val == [] == r'.val;
      case Free(va, n) =>
        if n > 0 && Accepted(s, u.layout, va, PagesFor(s, n)) {
          StateUnique(s, v, w);
        }
    }
  }

  // ---- Calls on a memory

  ghost function StateOf(vm: VirtualMemory): State
    reads vm, vm.mem
  {
    State(vm.layout, vm.mem[..], vm.trace)
  }

  method Perform(vm: VirtualMemory, c: Call) returns (reply: Reply)
    requires vm.Valid() && vm.scheme.Ok() && Ready(vm.scheme, StateOf(vm), c)
    modifies vm`misses, vm`lookups, vm`trace, vm`layout, vm.tlb, vm.tlb.repr, vm.mem, vm.virtualBitmap, vm.frameBitmap
    ensures vm.Valid() && fresh(vm.tlb.repr - old(vm.tlb.repr))
    ensures Outcome(vm.scheme, old(StateOf(vm)), c, StateOf(vm), reply)
  {
    hide Inv, VirtualMemory.CacheOk, Contents, PagesFor, CheckOps, AccessOps, DropAndUseAll, UseAll, Home, Position,
      RoomAt, StreamIndex, Accepted, Scheme.PageOf, Scheme.OffsetOf, Scheme.Ok, Allocated, FirstFit, FreedPages,
      FreedBytes, Stored, Loaded, Zeros, Scheme.AddressOf, VirtualMemory.VirtualPages, VirtualMemory.Frames, Reserved,
      Lru.Reinserting, Scheme.Pages, Scheme.Usable, InPageZero, VirtualMemory.DirectoryFreed, GoesOn;
    ghost var v := StateOf(vm);
    match c {
      case Malloc(n) =>
        var va, b, fs := vm.Malloc(n);
        assert Mallocked(vm.scheme, v, n, StateOf(vm), va, b, fs);
        reply := Address(va);
      case Put(va, val) =>
        Elsewhere(vm.scheme, v.layout, va, |val|);
        var r := vm.PutValue(va, val);
        reply := Result(r);
      case Get(va, n) =>
        var val := vm.GetValue(va, n);
        reply := Value(val);
      case Free(va, n) =>
        vm.Free(va, n);
        reply := Nothing;
    }
  }

  lemma Elsewhere(s: Scheme, l: Layout, va: nat, n: nat)
    requires s.Ok() && !InPageZero(s, va)
    ensures !GoesOn(s, l, va, n)
  {
  }

  // ---- Twins

  /** Two memories that share no object. */
  ghost predicate Apart(a: VirtualMemory, b: VirtualMemory)
    reads a, b, a.tlb, b.tlb
  {
    && a != b && a.mem != b.mem && a.tlb != b.tlb && a.tlb.repr !! b.tlb.repr
    && {a.virtualBitmap, a.frameBitmap} !! {b.virtualBitmap, b.frameBitmap}
    && a.mem as object !in {b.virtualBitmap as object, b.frameBitmap}
    && b.mem as object !in {a.virtualBitmap as object, a.frameBitmap}
  }

  /** They are in equal states, whatever their caches. */
  ghost predicate Twins(a: VirtualMemory, b: VirtualMemory)
    reads a, b, a.tlb, b.tlb, a.tlb.spine, b.tlb.spine, a.mem, b.mem, a.virtualBitmap, b.virtualBitmap, a.frameBitmap,
      b.frameBitmap
  {
    Apart(a, b) && a.Valid() && b.Valid() && a.scheme == b.scheme && StateOf(a) == StateOf(b)
  }

  /** Equal calls have equal replies, and leave twins. */
  method PerformBoth(a: VirtualMemory, b: VirtualMemory, c: Call) returns (reply: Reply, reply': Reply)
    requires Twins(a, b) && a.scheme.Ok() && Ready(a.scheme, StateOf(a), c)
    modifies a`misses, a`lookups, a`trace, a`layout, a.tlb, a.tlb.repr, a.mem, a.virtualBitmap, a.frameBitmap
    modifies b`misses, b`lookups, b`trace, b`layout, b.tlb, b.tlb.repr, b.mem, b.virtualBitmap, b.frameBitmap
    ensures Twins(a, b) && reply == reply'
    ensures fresh(a.tlb.repr - old(a.tlb.repr)) && fresh(b.tlb.repr - old(b.tlb.repr))
    ensures Outcome(a.scheme, old(StateOf(a)), c, StateOf(a), reply)
  {
    hide VirtualMemory.BitmapsOk, VirtualMemory.CacheOk, Inv, Outcome, Ready, Lru.Reinserting, Scheme.Ok;
    ghost var v := StateOf(a);
    Nodes(b);
    reply := Perform(a, c);
    Nodes(a);
    reply' := Perform(b, c);
    OutcomeUnique(a.scheme, v, c, StateOf(a), reply, StateOf(b), reply');
  }

  /** The nodes of a cache are its own. */
  lemma Nodes(vm: VirtualMemory)
    requires vm.Valid()
    ensures forall n :: n in vm.tlb.spine ==> n in vm.tlb.repr
  {
    hide Inv, VirtualMemory.BitmapsOk, CacheState;
  }

  /** Can the calls be made one after another, whatever they reply? */
  ghost predicate ReadyAll(s: Scheme, v: State, cs: seq<Call>)
    requires s.Ok()
    decreases |cs|
  {
    cs == [] || (
      && Ready(s, v, cs[0])
      && forall v', r {:trigger Outcome(s, v, cs[0], v', r)} ::
           Outcome(s, v, cs[0], v', r) ==> ReadyAll(s, v', cs[1..]))
  }

  /** The same program run over two new memories with caches of different capacities has the same replies and leaves the
      same memory; the larger cache misses no more often, and holds all that the smaller one does. */
  method CompareCapacities(s: Scheme, small: nat, large: nat, cs: seq<Call>)
    returns (a: VirtualMemory, b: VirtualMemory, replies: seq<Reply>, replies': seq<Reply>)
    requires s.Ok() && 1 <= small <= large
    requires forall v: State {:trigger StateOk(s, v)} :: StateOk(s, v) && v.layout == NoLayout() && v.trace == [] ==>
      ReadyAll(s, v, cs)
    ensures a.Valid() && b.Valid() && a.tlbEntries == small && b.tlbEntries == large
    ensures replies == replies' && |replies| == |cs| && a.layout == b.layout && a.mem[..] == b.mem[..]
    ensures b.misses <= a.misses && b.lookups == a.lookups && a.trace == b.trace
    ensures EntryPages(s, a.tlb.Contents()) <= EntryPages(s, b.tlb.Contents())
  {
    hide VirtualMemory.BitmapsOk, VirtualMemory.CacheOk, Inv, Outcome, Ready, Lru.Reinserting, Scheme.Ok;
    a := new VirtualMemory(s, small);
    b := new VirtualMemory(s, large);
    NewUnique(s, StateOf(a), StateOf(b));
    replies, replies' := [], [];
    assert cs[0..] == cs;
    for i := 0 to |cs|
      invariant Twins(a, b) && a.scheme == s && a.tlbEntries == small && b.tlbEntries == large
      invariant fresh(a.tlb.repr) && fresh(b.tlb.repr) && ReadyAll(s, StateOf(a), cs[i..])
      invariant replies == replies' && |replies| == i
    {
      assert cs[i..][0] == cs[i] && cs[i..][1..] == cs[i + 1..];
      var r, r' := PerformBoth(a, b, cs[i]);
      replies, replies' := replies + [r], replies' + [r'];
    }
    LargerCacheMissesNoMore(a, b);
  }

  /** New memories are alike. */
  lemma NewUnique(s: Scheme, v: State, w: State)
    requires StateOk(s, v) && StateOk(s, w) && v.layout == w.layout == NoLayout() && v.trace == w.trace
    ensures v == w
  {
    hide Inv, Contents;
    NoBytes(s, v);
    NoBytes(s, w);
    StateUnique(s, v, w);
  }

  lemma NoBytes(s: Scheme, v: State)
    requires StateOk(s, v) && v.layout == NoLayout()
    ensures Contents(s, v.mem, v.layout) == map[]
  {
    hide Directory, Cells, FreeFramesZero, Linked, Shape;
  }
}
