/** Posting lists kept as chains of slabs in one shared pool: the values, apart from the heap. */
module SlabPool {

  const NIL: nat := 0xFFFF_FFFF
  type U32 = n: nat | n <= 0xFFFF_FFFF

  datatype Cell = Cell(next: nat, count: nat, data: seq<U32>)

  // The pool with, for each slab in use, the term it was allocated for.
  datatype Pool = Pool(slabSize: nat, heads: seq<nat>, tails: seq<nat>, cells: seq<Cell>, owner: seq<nat>)

  ghost predicate CellOk(p: Pool, i: nat)
    requires i < |p.cells| == |p.owner| && |p.heads| == |p.tails|
  {
    var c := p.cells[i];
    && p.owner[i] < |p.heads|
    && 0 < c.count <= p.slabSize == |c.data|
    // only a term's tail ends a chain; every slab before it is full and points further up the pool
    && (c.next == NIL ==> p.tails[p.owner[i]] == i)
    && (c.next != NIL ==> i < c.next < |p.cells| && p.owner[c.next] == p.owner[i] && c.count == p.slabSize)
  }

  ghost predicate TermOk(p: Pool, t: nat)
    requires t < |p.heads| == |p.tails| && |p.cells| == |p.owner|
  {
    var h, l := p.heads[t], p.tails[t];
    && (h == NIL <==> l == NIL)
    && (h != NIL ==> h < |p.cells| && p.owner[h] == t && l < |p.cells| && p.owner[l] == t && p.cells[l].next == NIL)
  }

  ghost predicate Valid(p: Pool) {
    && p.slabSize > 0 && |p.heads| == |p.tails| && |p.cells| == |p.owner| <= NIL
    && (forall i | 0 <= i < |p.cells| :: CellOk(p, i))
    && (forall t | 0 <= t < |p.heads| :: TermOk(p, t))
  }

  // What the chain from slab i holds.
  ghost function Follow(p: Pool, i: nat): seq<U32>
    requires Valid(p) && i < |p.cells|
    decreases |p.cells| - i
  {
    assert CellOk(p, i);
    var c := p.cells[i];
    c.data[..c.count] + (if c.next == NIL then [] else Follow(p, c.next))
  }

  // The documents of term t, in order.
  ghost function Contents(p: Pool, t: nat): seq<U32>
    requires Valid(p) && t < |p.heads|
  {
    assert TermOk(p, t);
    if p.heads[t] == NIL then [] else Follow(p, p.heads[t])
  }

  // The slabs of the chain from slab i.
  ghost function Chain(p: Pool, i: nat): seq<nat>
    requires Valid(p) && i < |p.cells|
    decreases |p.cells| - i
  {
    assert CellOk(p, i);
    [i] + (if p.cells[i].next == NIL then [] else Chain(p, p.cells[i].next))
  }

  // A chain stays with its term, so chains of different terms share no slab.
  lemma {:induction false} ChainOwned(p: Pool, i: nat)
    requires Valid(p) && i < |p.cells|
    ensures forall k | k in Chain(p, i) :: k < |p.cells| && p.owner[k] == p.owner[i]
    decreases |p.cells| - i
  {
    assert CellOk(p, i);
    if p.cells[i].next != NIL {
      ChainOwned(p, p.cells[i].next);
    }
  }

  lemma ChainsDisjoint(p: Pool, t: nat, u: nat)
    requires Valid(p) && t < |p.heads| && u < |p.heads| && t != u && p.heads[t] != NIL && p.heads[u] != NIL
    ensures TermOk(p, t) && TermOk(p, u)
    ensures forall k | k in Chain(p, p.heads[t]) :: k !in Chain(p, p.heads[u])
  {
    assert TermOk(p, t) && TermOk(p, u);
    ChainOwned(p, p.heads[t]);
    ChainOwned(p, p.heads[u]);
  }

  // ----- appending

  predicate Full(p: Pool, t: nat)
    requires t < |p.tails|
  {
    var l := p.tails[t];
    l >= |p.cells| || p.cells[l].count >= p.slabSize
  }

  // Room in the tail: the document goes behind the others.
  function Filled(c: Cell, doc: U32): Cell
    requires c.count < |c.data|
  {
    c.(data := c.data[c.count := doc], count := c.count + 1)
  }

  function PutInTail(p: Pool, t: nat, doc: U32): Pool
    requires t < |p.tails| && p.tails[t] < |p.cells| && p.cells[p.tails[t]].count < |p.cells[p.tails[t]].data|
  {
    var l := p.tails[t];
    p.(cells := p.cells[l := Filled(p.cells[l], doc)])
  }

  // No room: a new slab, whose data is arbitrary, becomes the tail.
  function PutInNew(p: Pool, t: nat, doc: U32, data: seq<U32>): Pool
    requires t < |p.tails| == |p.heads| && |data| == p.slabSize > 0
  {
    var n, l := |p.cells|, p.tails[t];
    var linked := if l < n then p.cells[l := p.cells[l].(next := n)] else p.cells;
    p.(cells := linked + [Cell(NIL, 1, data[0 := doc])], owner := p.owner + [t],
       heads := if p.heads[t] == NIL then p.heads[t := n] else p.heads, tails := p.tails[t := n])
  }

  lemma PutInTailValid(p: Pool, t: nat, doc: U32)
    requires Valid(p) && t < |p.heads| && !Full(p, t)
    ensures p.cells[p.tails[t]].count < |p.cells[p.tails[t]].data|
    ensures Valid(PutInTail(p, t, doc))
  {
    assert TermOk(p, t) && CellOk(p, p.tails[t]);
    var q := PutInTail(p, t, doc);
    forall i | 0 <= i < |q.cells|
      ensures CellOk(q, i)
    {
      assert CellOk(p, i);
    }
    forall u | 0 <= u < |q.heads|
      ensures TermOk(q, u)
    {
      assert TermOk(p, u);
    }
  }

  lemma PutInNewValid(p: Pool, t: nat, doc: U32, data: seq<U32>)
    requires Valid(p) && t < |p.heads| && Full(p, t) && |data| == p.slabSize && |p.cells| < NIL
    ensures Valid(PutInNew(p, t, doc, data))
  {
    assert TermOk(p, t);
    var q := PutInNew(p, t, doc, data);
    if p.tails[t] != NIL {
      assert CellOk(p, p.tails[t]);
    }
    forall i | 0 <= i < |q.cells|
      ensures CellOk(q, i)
    {
      if i < |p.cells| {
        assert CellOk(p, i);
      }
    }
    forall u | 0 <= u < |q.heads|
      ensures TermOk(q, u)
    {
      assert TermOk(p, u);
    }
  }

  // From slab i of the term's chain, one more document is read; other chains read as before.
  lemma {:induction false} FollowTail(p: Pool, t: nat, doc: U32, i: nat)
    requires Valid(p) && t < |p.heads| && !Full(p, t) && i < |p.cells|
    requires p.cells[p.tails[t]].count < |p.cells[p.tails[t]].data| && Valid(PutInTail(p, t, doc))
    ensures Follow(PutInTail(p, t, doc), i) == Follow(p, i) + (if p.owner[i] == t then [doc] else [])
    decreases |p.cells| - i
  {
    var q := PutInTail(p, t, doc);
    var c, d := p.cells[i], q.cells[i];
    assert CellOk(p, i) && CellOk(q, i) && TermOk(p, t) && CellOk(p, p.tails[t]);
    if i == p.tails[t] {
      assert d.data[..d.count] == c.data[..c.count] + [doc];
    } else if c.next != NIL {
      FollowTail(p, t, doc, c.next);
    }
  }

  lemma {:induction false} FollowNew(p: Pool, t: nat, doc: U32, data: seq<U32>, i: nat)
    requires Valid(p) && t < |p.heads| && Full(p, t) && |data| == p.slabSize && i < |p.cells| < NIL
    requires Valid(PutInNew(p, t, doc, data))
    ensures Follow(PutInNew(p, t, doc, data), i) == Follow(p, i) + (if p.owner[i] == t then [doc] else [])
    decreases |p.cells| - i
  {
    var q := PutInNew(p, t, doc, data);
    var c, d := p.cells[i], q.cells[i];
    assert CellOk(p, i) && CellOk(q, i) && TermOk(p, t);
    if i == p.tails[t] {
      FollowLast(q, |p.cells|, doc);
    } else if c.next != NIL {
      FollowNew(p, t, doc, data, c.next);
    }
  }

  lemma FollowLast(p: Pool, i: nat, doc: U32)
    requires Valid(p) && i < |p.cells| && p.cells[i].next == NIL && p.cells[i].count == 1
    requires |p.cells[i].data| > 0 && p.cells[i].data[0] == doc
    ensures Follow(p, i) == [doc]
  {
    assert CellOk(p, i);
    assert p.cells[i].data[..1] == [doc];
  }

  // Appending in either way adds the document to its term and to no other.
  lemma PutInTailContents(p: Pool, t: nat, doc: U32)
    requires Valid(p) && t < |p.heads| && !Full(p, t)
    requires p.cells[p.tails[t]].count < |p.cells[p.tails[t]].data|
    ensures var q := PutInTail(p, t, doc);
            Valid(q) && forall u | 0 <= u < |p.heads| ::
              Contents(q, u) == Contents(p, u) + (if u == t then [doc] else [])
  {
    PutInTailValid(p, t, doc);
    var q := PutInTail(p, t, doc);
    assert TermOk(p, t);
    forall u | 0 <= u < |p.heads|
      ensures Contents(q, u) == Contents(p, u) + (if u == t then [doc] else [])
    {
      assert TermOk(p, u);
      if p.heads[u] != NIL {
        FollowTail(p, t, doc, p.heads[u]);
      }
    }
  }

  lemma PutInNewContents(p: Pool, t: nat, doc: U32, data: seq<U32>)
    requires Valid(p) && t < |p.heads| && Full(p, t) && |data| == p.slabSize && |p.cells| < NIL
    ensures var q := PutInNew(p, t, doc, data);
            Valid(q) && forall u | 0 <= u < |p.heads| ::
              Contents(q, u) == Contents(p, u) + (if u == t then [doc] else [])
  {
    PutInNewValid(p, t, doc, data);
    var q := PutInNew(p, t, doc, data);
    forall u | 0 <= u < |p.heads|
      ensures Contents(q, u) == Contents(p, u) + (if u == t then [doc] else [])
    {
      assert TermOk(p, u);
      if p.heads[u] != NIL {
        FollowNew(p, t, doc, data, p.heads[u]);
      } else if u == t {
        FollowLast(q, |p.cells|, doc);
      }
    }
  }
}

/** The dynamic index itself: heads, tails and slabs in place. */
module SlabIndex {
  import opened SlabPool

  class Slab {
    var next: nat
    var count: nat
    const data: array<U32>

    constructor (size: nat)
      ensures fresh(this) && fresh(data) && data.Length == size && next == NIL && count == 0
    {
      next, count := NIL, 0;
      data := new U32[size];
    }
  }

  datatype Reply = Ok | BadArgument | OutOfSlabs

  class DynIndex {
    const numTerms: nat
    const slabSize: nat
    const maxSlabs: nat
    var slabTop: nat
    const heads: array<nat>
    const tails: array<nat>
    const slabs: array<Slab?>
    ghost var cells: seq<Cell>   // the values of the slabs in use
    ghost var owner: seq<nat>    // the term of each

    // The slabs in use; slabTop also counts the requests that found none.
    function Used(): nat
      reads this
    {
      if slabTop < maxSlabs then slabTop else maxSlabs
    }

    ghost predicate Holds(s: Slab, c: Cell)
      reads s, s.data
    {
      s.data.Length == slabSize && s.next == c.next && s.count == c.count && s.data[..] == c.data
    }

    ghost function Memory(): set<object>
      reads this, slabs
    {
      (set i | 0 <= i < slabs.Length && slabs[i] != null :: slabs[i] as object)
      + (set i | 0 <= i < slabs.Length && slabs[i] != null :: slabs[i].data as object)
    }

    // The memory is laid out as it should be, and stands for `cells`.
    ghost predicate Shaped()
      reads this, slabs, Memory()
    {
      && 0 < slabSize && maxSlabs <= NIL && slabs.Length == maxSlabs
      && heads.Length == tails.Length == numTerms && heads != tails
      && heads !in Memory() && tails !in Memory()
      && |cells| == |owner| == Used()
      && (forall i | 0 <= i < Used() :: slabs[i] != null && Holds(slabs[i], cells[i]))
      && (forall i, j | 0 <= i < j < Used() :: slabs[i] != slabs[j] && slabs[i].data != slabs[j].data)
    }

    ghost function View(): Pool
      reads this, heads, tails
    {
      Pool(slabSize, heads[..], tails[..], cells, owner)
    }

    ghost predicate ValidIndex()
      reads this, heads, tails, slabs, Memory()
    {
      Shaped() && Valid(View())
    }

    constructor (terms: nat, size: nat, max: nat)
      requires 0 < terms && 0 < size && 0 < max <= 0xFFFF_FFFF
      ensures ValidIndex() && numTerms == terms && slabSize == size && maxSlabs == max && slabTop == 0
      ensures fresh(heads) && fresh(tails) && fresh(slabs) && fresh(Memory())
      ensures forall t | 0 <= t < terms :: Contents(View(), t) == []
    {
      numTerms, slabSize, maxSlabs, slabTop := terms, size, max, 0;
      heads := new nat[terms](_ => NIL);
      tails := new nat[terms](_ => NIL);
      slabs := new Slab?[max](_ => null);
      owner, cells := [], [];
      new;
      assert forall t | 0 <= t < terms :: TermOk(View(), t);
    }

    // slab->data[slab->count++] = doc
    method FillTail(tail: nat, doc: U32)
      requires Shaped() && tail < Used() && slabs[tail].count < slabSize
      modifies this`cells, slabs[tail], slabs[tail].data
      ensures Shaped() && View() == old(View()).(cells := old(cells)[tail := Filled(old(cells)[tail], doc)])
      ensures Memory() == old(Memory())
    {
      var s := slabs[tail];
      s.data[s.count] := doc;
      s.count := s.count + 1;
      cells := cells[tail := Filled(cells[tail], doc)];
    }

    // Adds a document to a term, taking a slab from the pool when its tail has no room.
    method Append(tid: nat, doc: U32) returns (r: Reply)
      requires ValidIndex() && slabTop < 0xFFFF_FFFF
      modifies this, heads, tails, slabs, Memory()
      ensures ValidIndex() && fresh(Memory() - old(Memory()))
      ensures r == BadArgument <==> tid >= numTerms
      ensures r == OutOfSlabs <==> tid < numTerms && old(Full(View(), tid)) && old(slabTop) >= maxSlabs
      ensures forall t | 0 <= t < numTerms ::
                Contents(View(), t) == old(Contents(View(), t)) + (if r == Ok && t == tid then [doc] else [])
      ensures slabTop == old(slabTop) + (if tid < numTerms && old(Full(View(), tid)) then 1 else 0)
    {
      if tid >= numTerms {
        return BadArgument;
      }
      var tail := tails[tid];
      assert TermOk(View(), tid);
      if tail != NIL && slabs[tail].count < slabSize {
        PutInTailContents(View(), tid, doc);
        FillTail(tail, doc);
        return Ok;
      }
      if slabTop >= maxSlabs {
        slabTop := slabTop + 1;
        return OutOfSlabs;
      }
      ghost var p := View();
      ghost var data := TakeSlab(tid, tail, doc);
      PutInNewContents(p, tid, doc, data);
      return Ok;
    }

    // A new slab from the pool, linked behind the old tail, with the document in it.
    method TakeSlab(tid: nat, tail: nat, doc: U32) returns (ghost data: seq<U32>)
      requires Shaped() && slabTop < maxSlabs && tid < numTerms && tail == tails[tid]
      requires tail == NIL <==> heads[tid] == NIL
      requires tail == NIL || tail < slabTop
      modifies this, heads, tails, slabs, Memory()
      ensures Shaped() && fresh(Memory() - old(Memory())) && slabTop == old(slabTop) + 1
      ensures |data| == slabSize && View() == PutInNew(old(View()), tid, doc, data)
    {
      ghost var p := View();
      var idx := Allocate(tid);
      data := cells[idx].data;
      if tail == NIL {
        heads[tid] := idx;
      } else {
        SetNext(tail, idx);
      }
      tails[tid] := idx;
      FillTail(idx, doc);
      NewCells(p, tid, doc, data);
      assert heads[..] == if tail == NIL then p.heads[tid := idx] else p.heads;
      assert tails[..] == p.tails[tid := idx];
    }

    // The next unused slab, empty and not yet linked.
    method Allocate(ghost tid: nat) returns (idx: nat)
      requires Shaped() && slabTop < maxSlabs
      modifies this`slabTop, this`cells, this`owner, slabs
      ensures Shaped() && idx == old(slabTop) && slabTop == idx + 1 && fresh(Memory() - old(Memory()))
      ensures |cells| == idx + 1 && |cells[idx].data| == slabSize
      ensures cells == old(cells) + [Cell(NIL, 0, cells[idx].data)] && owner == old(owner) + [tid]
      ensures fresh(slabs[idx]) && fresh(slabs[idx].data)
      ensures forall i | 0 <= i < idx :: slabs[i] == old(slabs[i])
    {
      idx := slabTop;
      slabTop := slabTop + 1;
      var s := new Slab(slabSize);
      slabs[idx] := s;
      cells, owner := cells + [Cell(NIL, 0, s.data[..])], owner + [tid];
    }

    method SetNext(i: nat, next: nat)
      requires Shaped() && i < Used()
      modifies this`cells, slabs[i]
      ensures Shaped() && cells == old(cells)[i := old(cells)[i].(next := next)] && Memory() == old(Memory())
    {
      slabs[i].next := next;
      cells := cells[i := cells[i].(next := next)];
    }

    // The number of documents of a term, by a walk along its chain, as far as 32 bits hold it.
    method CountPostings(tid: nat) returns (total: nat)
      requires ValidIndex() && tid < numTerms
      ensures total == |Contents(View(), tid)| % 0x1_0000_0000
    {
      ghost var p := View();
      ghost var rest := Contents(p, tid);
      ghost var size, seen: nat := |rest|, 0;
      assert TermOk(p, tid);
      total := 0;
      var cur := heads[tid];
      while cur != NIL
        invariant seen + |rest| == size && total == Wrap(seen) && Remaining(p, cur, rest)
        decreases |rest|
      {
        NextSlab(p, cur, rest);
        rest := rest[slabs[cur].count..];
        WrapsOn(seen, slabs[cur].count);
        seen := seen + slabs[cur].count;
        total := Add32(total, slabs[cur].count);
        cur := slabs[cur].next;
      }
    }

    // memcpy of a slab's documents to position dst.
    method CopyOut(s: Slab, out: array<U32>, dst: nat)
      requires s.count <= s.data.Length && dst + s.count <= out.Length && out != s.data
      modifies out
      ensures out[..dst + s.count] == old(out[..dst]) + s.data[..s.count]
    {
      forall k | 0 <= k < s.count {
        out[dst + k] := s.data[k];
      }
    }

    // The second walk, which fills the buffer.
    method CopyPostings(tid: nat, out: array<U32>)
      requires ValidIndex() && tid < numTerms && out.Length == |Contents(View(), tid)|
      requires out !in Memory() && heads as object != out && tails as object != out && slabs as object != out
      modifies out
      ensures out[..] == Contents(old(View()), tid)
    {
      ghost var p := View();
      ghost var rest := Contents(p, tid);
      assert TermOk(p, tid);
      var dst: nat := 0;
      var cur := heads[tid];
      while cur != NIL
        invariant dst + |rest| == out.Length && Remaining(p, cur, rest)
        invariant out[..dst] + rest == Contents(p, tid)
        decreases |rest|
      {
        var s := slabs[cur];
        NextSlab(p, cur, rest);
        ghost var done := out[..dst];
        MoveOver(done, rest, s.count);
        CopyOut(s, out, dst);
        dst := dst + s.count;
        assert out[..dst] == done + rest[..s.count];
        rest := rest[s.count..];
        cur := s.next;
      }
    }

    // Reads a term's documents: once along the chain to size the buffer, once more to fill it.
    method GetPostings(tid: nat) returns (out: array<U32>)
      requires ValidIndex()
      requires tid < numTerms ==> |Contents(View(), tid)| <= 0xFFFF_FFFF
      ensures fresh(out) && unchanged(this, heads, tails, slabs, Memory())
      ensures out[..] == if tid < numTerms then Contents(View(), tid) else []
    {
      if tid >= numTerms {
        out := new U32[0];
      } else {
        var total := CountPostings(tid);
        out := new U32[total];
        CopyPostings(tid, out);
      }
    }
  }

  const WORD: nat := 0x1_0000_0000

  function Wrap(n: nat): nat {
    n % WORD
  }

  // Addition of 32-bit counters.
  function Add32(a: nat, b: nat): nat {
    Wrap(a + b)
  }

  lemma WrapsOn(a: nat, b: nat)
    ensures Add32(Wrap(a), b) == Wrap(a + b)
  {
  }

  // The documents that a run of appends has put behind term t.
  function Accepted(ops: seq<(nat, U32)>, replies: seq<Reply>, t: nat): seq<U32>
    requires |ops| == |replies|
  {
    if ops == [] then []
    else
      var n := |ops| - 1;
      Accepted(ops[..n], replies[..n], t) + (if replies[n] == Ok && ops[n].0 == t then [ops[n].1] else [])
  }

  // Every term of q reads as in p, followed by the documents accepted for it, in order.
  ghost predicate Grown(p: Pool, q: Pool, ops: seq<(nat, U32)>, replies: seq<Reply>)
    requires |ops| == |replies|
  {
    && Valid(p) && Valid(q) && |p.heads| == |q.heads|
    && forall t | 0 <= t < |p.heads| :: Contents(q, t) == Contents(p, t) + Accepted(ops, replies, t)
  }

  // Any run of appends.
  method AppendAll(ix: DynIndex, ops: seq<(nat, U32)>) returns (replies: seq<Reply>)
    requires ix.ValidIndex() && ix.slabTop + |ops| <= 0xFFFF_FFFF
    modifies ix, ix.heads, ix.tails, ix.slabs, ix.Memory()
    ensures ix.ValidIndex() && |replies| == |ops| && Grown(old(ix.View()), ix.View(), ops, replies)
  {
    ghost var p := ix.View();
    replies := [];
    var i := 0;
    while i < |ops|
      invariant 0 <= i <= |ops| && |replies| == i
      invariant ix.ValidIndex() && fresh(ix.Memory() - old(ix.Memory())) && ix.slabTop + |ops| - i <= 0xFFFF_FFFF
      invariant Grown(p, ix.View(), ops[..i], replies)
    {
      var r := AppendNext(ix, p, ops[..i], replies, ops[i]);
      OneMore(ops, i);
      replies := replies + [r];
      i := i + 1;
    }
    assert ops[..i] == ops;
  }

  lemma OneMore(ops: seq<(nat, U32)>, i: nat)
    requires i < |ops|
    ensures ops[..i + 1] == ops[..i] + [ops[i]]
  {
  }

  // One more append after a run.
  method AppendNext(ix: DynIndex, ghost p: Pool, ghost ops: seq<(nat, U32)>, ghost replies: seq<Reply>, op: (nat, U32))
    returns (r: Reply)
    requires ix.ValidIndex() && ix.slabTop < 0xFFFF_FFFF && |ops| == |replies| && Grown(p, ix.View(), ops, replies)
    modifies ix, ix.heads, ix.tails, ix.slabs, ix.Memory()
    ensures ix.ValidIndex() && fresh(ix.Memory() - old(ix.Memory())) && ix.slabTop <= old(ix.slabTop) + 1
    ensures Grown(p, ix.View(), ops + [op], replies + [r])
  {
    ghost var q := ix.View();
    r := ix.Append(op.0, op.1);
    GrowOne(p, q, ix.View(), ops, replies, op, r);
  }

  lemma GrowOne(p: Pool, q: Pool, q': Pool, ops: seq<(nat, U32)>, replies: seq<Reply>, op: (nat, U32), r: Reply)
    requires |ops| == |replies| && Grown(p, q, ops, replies) && Valid(q') && |q'.heads| == |q.heads|
    requires forall t | 0 <= t < |q.heads| ::
               Contents(q', t) == Contents(q, t) + (if r == Ok && t == op.0 then [op.1] else [])
    ensures Grown(p, q', ops + [op], replies + [r])
  {
    AcceptedSnoc(ops, replies, op, r);
  }

  lemma AcceptedSnoc(ops: seq<(nat, U32)>, replies: seq<Reply>, op: (nat, U32), r: Reply)
    requires |ops| == |replies|
    ensures forall t: nat :: Accepted(ops + [op], replies + [r], t)
              == Accepted(ops, replies, t) + (if r == Ok && op.0 == t then [op.1] else [])
  {
    assert (ops + [op])[..|ops|] == ops && (replies + [r])[..|ops|] == replies;
  }

  // Linking the new slab and filling it, in the order of the code.
  lemma NewCells(p: Pool, t: nat, doc: U32, data: seq<U32>)
    requires t < |p.tails| == |p.heads| && |data| == p.slabSize > 0
    requires |p.cells| < NIL && (p.tails[t] == NIL || p.tails[t] < |p.cells|)
    ensures var n, l, empty := |p.cells|, p.tails[t], Cell(NIL, 0, data);
            var taken := p.cells + [empty];
            var linked := if l == NIL then taken else taken[l := taken[l].(next := n)];
            linked[n := Filled(empty, doc)] == PutInNew(p, t, doc, data).cells
  {
  }

  lemma MoveOver(done: seq<U32>, rest: seq<U32>, n: nat)
    requires n <= |rest|
    ensures done + rest == (done + rest[..n]) + rest[n..]
  {
  }

  // What is still to be read when the cursor is at cur.
  ghost predicate Remaining(p: Pool, cur: nat, rest: seq<U32>)
    requires Valid(p)
  {
    if cur == NIL then rest == [] else cur < |p.cells| && rest == Follow(p, cur)
  }

  lemma NextSlab(p: Pool, cur: nat, rest: seq<U32>)
    requires Valid(p) && cur != NIL && Remaining(p, cur, rest)
    ensures var c := p.cells[cur];
            && 0 < c.count <= |rest| && c.count <= |c.data| && rest[..c.count] == c.data[..c.count]
            && (c.next != NIL ==> cur < c.next < |p.cells|)
            && Remaining(p, c.next, rest[c.count..])
  {
    assert CellOk(p, cur);
  }
}
