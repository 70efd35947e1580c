/** What files hold: a read returns what was written, and a file only ever appended to is the concatenation of
    the writes. */
module FsContents {
  import opened FsTree
  import opened Words

  /** With every touched block there, all the bytes can be read. */
  lemma {:induction false} AllAvailable(held: set<nat>, off: nat, n: nat)
    requires off + n <= MAX_FILE && Touched(off, n) <= held
    ensures Available(held, off, n) == n
    decreases n
  {
    if n > 0 {
      var k := off / BLOCK_SIZE;
      assert Touches(k, off, n) && k in Touched(off, n);
      var step := if n <= BLOCK_SIZE - off % BLOCK_SIZE then n else BLOCK_SIZE - off % BLOCK_SIZE;
      forall j | j in Touched(off + step, n - step) ensures j in held {
        assert j in Touched(off, n);
      }
      AllAvailable(held, off + step, n - step);
    }
  }

  /** A write replaces exactly the bytes it covers. */
  lemma WriteReplaces(node: Node, off: nat, data: seq<byte>, j: nat)
    requires FileOk(node) && j < MAX_FILE
    ensures var n := Writable(off, |data|); var node' := Written(node, off, data);
      FileOk(node') && node'.image[j] == if off <= j < off + n then data[j - off] else node.image[j]
  {
  }

  /** A read of what was just written returns it, exactly if the write did not start beyond the end. */
  lemma ReadBack(node: Node, off: nat, data: seq<byte>)
    requires FileOk(node)
    ensures var n := Writable(off, |data|); var node' := Written(node, off, data);
      FileOk(node') && (Read(node', off, n) == data[..n] <==> off <= node.size || n == 0)
  {
    var n := Writable(off, |data|);
    var node' := Written(node, off, data);
    if n > 0 {
      AllAvailable(node'.held, off, n);
      if off <= node.size {
        assert node'.image[off..off + n] == data[..n];
      }
    }
  }

  /** A write makes the size grow by the bytes that fit, and the blocks it touches are there afterwards besides those
      that were. */
  lemma WriteLaw(node: Node, off: nat, data: seq<byte>)
    requires FileOk(node)
    ensures var n := Writable(off, |data|); var node' := Written(node, off, data);
      && n == (if off >= MAX_FILE then 0 else if off + |data| <= MAX_FILE then |data| else MAX_FILE - off)
      && node'.size == node.size + n
      && forall k: nat :: k in node'.held <==>
           k in node.held || (n > 0 && k < DIRECT && off < (k + 1) * BLOCK_SIZE && k * BLOCK_SIZE < off + n)
  {
    forall k: nat
      ensures k in Touched(off, Writable(off, |data|)) <==> k < DIRECT && Touches(k, off, Writable(off, |data|))
    {
    }
  }

  /** A read returns the bytes of the image, from blocks that are there, until it has as many as asked for, or comes to
      the end of the file or to the first byte of a block that is not there. */
  lemma ReadLaw(node: Node, off: nat, n: nat)
    requires FileOk(node)
    ensures var r := Read(node, off, n);
      && |r| <= n && (r != [] ==> off + |r| <= node.size)
      && (forall j :: 0 <= j < |r| ==> off + j < MAX_FILE && r[j] == node.image[off + j])
      && (forall x :: off <= x < off + |r| ==> !Missing(node.held, x))
      && (|r| < n && off + |r| < node.size ==> Missing(node.held, off + |r|))
  {
    hide Available;
    if off < node.size {
      AvailableLaw(node.held, off, if node.size - off < n then node.size - off else n);
    }
  }

  /** Is the byte at `off` not in a block that is there? */
  ghost predicate Missing(held: set<nat>, off: nat) {
    off / BLOCK_SIZE >= DIRECT || off / BLOCK_SIZE !in held
  }

  lemma {:induction false} AvailableLaw(held: set<nat>, off: nat, n: nat)
    ensures var r := Available(held, off, n);
      && (forall x :: off <= x < off + r ==> !Missing(held, x))
      && (r < n ==> Missing(held, off + r))
    decreases n
  {
    var k := off / BLOCK_SIZE;
    if n != 0 && k < DIRECT && k in held {
      var step := if n <= BLOCK_SIZE - off % BLOCK_SIZE then n else BLOCK_SIZE - off % BLOCK_SIZE;
      AvailableLaw(held, off + step, n - step);
      var r := Available(held, off, n);
      forall x | off <= x < off + r ensures !Missing(held, x) {
        if x < off + step {
          SameBlock(off, x - off);
        }
      }
    }
  }

  lemma SameBlock(off: nat, j: nat)
    requires off % BLOCK_SIZE + j < BLOCK_SIZE
    ensures (off + j) / BLOCK_SIZE == off / BLOCK_SIZE
  {
  }

  /** When something was written, wherever, the size is the larger of the old size and the end of the write exactly if
      the write was at the end. */
  lemma SizeExact(node: Node, off: nat, data: seq<byte>)
    requires FileOk(node)
    ensures var n := Writable(off, |data|); var node' := Written(node, off, data);
      && (n == 0 ==> node' == node)
      && (n > 0 ==>
            (node'.size == (if off + n <= node.size then node.size else off + n) <==> off == node.size))
  {
  }

  /** A byte written over another counts twice: the file ends with a byte that nobody wrote. */
  lemma OverwritingGrows(x: byte, y: byte)
    ensures var node := Written(Written(NewFile(), 0, [x]), 0, [y]);
      node.size == 2 && Read(node, 0, 2) == [y, 0]
  {
    hide Touched;
    var once := Written(NewFile(), 0, [x]);
    var node := Written(once, 0, [y]);
    WriteReplaces(NewFile(), 0, [x], 1);
    WriteReplaces(once, 0, [y], 0);
    WriteReplaces(once, 0, [y], 1);
    FirstBlock(1);
    FirstBlock(2);
    AllAvailable(node.held, 0, 2);
    assert node.image[0..2] == [y, 0];
  }

  lemma FirstBlock(n: nat)
    requires 0 < n <= BLOCK_SIZE
    ensures Touched(0, n) == {0}
  {
  }

  // ---- Appending

  /** The file holds exactly `c`. */
  ghost predicate Holds(node: Node, c: seq<byte>) {
    && FileOk(node) && node.size == |c| <= MAX_FILE && node.image[..|c|] == c
    && Touched(0, |c|) <= node.held
  }

  /** As much of the bytes as fits in a file. */
  function Fitting(c: seq<byte>): seq<byte> {
    if |c| <= MAX_FILE then c else c[..MAX_FILE]
  }

  lemma NewHolds()
    ensures Holds(NewFile(), [])
  {
  }

  lemma AppendHolds(node: Node, c: seq<byte>, data: seq<byte>)
    requires Holds(node, c)
    ensures Holds(Written(node, node.size, data), Fitting(c + data))
  {
    var n := Writable(|c|, |data|);
    var c' := Fitting(c + data);
    assert c' == c + data[..n];
    var node' := Written(node, node.size, data);
    if n > 0 {
      assert node'.image[..|c'|] == c';
      forall k | k in Touched(0, |c'|) ensures k in node'.held {
        assert Touches(k, 0, |c|) ==> k in Touched(0, |c|);
        assert !Touches(k, 0, |c|) ==> k in Touched(|c|, n);
      }
    }
  }

  lemma HoldsReads(node: Node, c: seq<byte>, off: nat, n: nat)
    requires Holds(node, c) && off + n <= |c|
    ensures Read(node, off, n) == c[off..off + n]
  {
    forall k | k in Touched(off, n) ensures k in node.held {
      assert k in Touched(0, |c|);
    }
    AllAvailable(node.held, off, n);
    assert node.image[off..off + n] == node.image[..|c|][off..off + n];
  }

  /** Does every write to file `i` in the run start at its end? */
  ghost predicate Appending(t: Tree, ops: seq<Op>, i: nat)
    requires CanRun(t, ops)
    decreases |ops|
  {
    ops == [] || (
      && (WritesTo(t, ops[0], i) ==> t.IsFile(i) && ops[0].offset == t.nodes[i].size)
      && Appending(Step(t, ops[0]), ops[1..], i))
  }

  ghost predicate WritesTo(t: Tree, op: Op, i: nat) {
    op.Write? && Resolve(t.nodes, ROOT, op.path) == Some(i)
  }

  /** What the run writes to file `i`, in order. */
  ghost function AllWritten(t: Tree, ops: seq<Op>, i: nat): seq<byte>
    requires CanRun(t, ops)
    decreases |ops|
  {
    if ops == [] then []
    else (if WritesTo(t, ops[0], i) then ops[0].data else []) + AllWritten(Step(t, ops[0]), ops[1..], i)
  }

  lemma StepOnFile(t: Tree, op: Op, i: nat)
    requires TreeOk(t) && Enabled(t, op) && t.IsFile(i) && FileOk(t.nodes[i])
    ensures var t' := Step(t, op);
      t'.IsFile(i) && t'.nodes[i] == if WritesTo(t, op, i) then Written(t.nodes[i], op.offset, op.data) else t.nodes[i]
  {
    hide AllOk, RootOk, Resolve, Walkable, Written;
    match op {
      case Mkdir(path, name) => assert i != FirstFree(t.taken, 0);
      case Create(path, name) => assert i != FirstFree(t.taken, 0);
      case Write(path, offset, data) =>
    }
  }

  lemma FittingTwice(c: seq<byte>, d: seq<byte>, e: seq<byte>)
    ensures Fitting(Fitting(c + d) + e) == Fitting(c + (d + e))
  {
  }

  /** In any run that only appends to a file, whatever else it makes and writes, the file holds what it held and then
      everything written to it, up to sixteen blocks, and its size is exact. */
  lemma {:induction false} RunAppends(t: Tree, ops: seq<Op>, i: nat, c: seq<byte>)
    requires TreeOk(t) && CanRun(t, ops) && t.IsFile(i) && Holds(t.nodes[i], c) && Appending(t, ops, i)
    ensures var t' := After(t, ops); t'.IsFile(i) && Holds(t'.nodes[i], Fitting(c + AllWritten(t, ops, i)))
    decreases |ops|
  {
    hide TreeOk, Enabled, Step, Holds, Fitting, Written, FileOk, Resolve;
    HoldsFile(t.nodes[i], c);
    if ops == [] {
      FittingHeld(t.nodes[i], c);
      assert c + [] == c;
    } else {
      var t1, d := Step(t, ops[0]), if WritesTo(t, ops[0], i) then ops[0].data else [];
      StepOk(t, ops[0]);
      StepOnFile(t, ops[0], i);
      if WritesTo(t, ops[0], i) {
        AppendHolds(t.nodes[i], c, d);
      } else {
        FittingHeld(t.nodes[i], c);
        assert c + d == c;
      }
      RunAppends(t1, ops[1..], i, Fitting(c + d));
      FittingTwice(c, d, AllWritten(t1, ops[1..], i));
    }
  }

  lemma HoldsFile(node: Node, c: seq<byte>)
    requires Holds(node, c)
    ensures FileOk(node)
  {
  }

  lemma FittingHeld(node: Node, c: seq<byte>)
    requires Holds(node, c)
    ensures Fitting(c) == c
  {
  }
}
