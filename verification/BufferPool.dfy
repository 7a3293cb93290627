/** The buffer pool under every interleaving of its users.  A `put` first tests and clears the
    buffer it was given and then pushes it; a `get` pops, or allocates when the pop found
    nothing.  Each of those is a step, and steps of different holders interleave freely. */
module PoolProtocol {
  datatype Buffer = Buffer(content: string, capacity: nat)

  /** A buffer, by identity, in the hands of a holder. */
  datatype Claim = Claim(holder: nat, id: nat)

  datatype Step =
    | Pop(holder: nat)                                               // `get`, first half
    | Allocate(holder: nat)                                          // `get`, when the pop found nothing
    | Create(holder: nat, buffer: Buffer)                            // a buffer made outside the pool
    | Write(holder: nat, id: nat, buffer: Buffer)                    // a holder uses its buffer
    | Release(holder: nat, id: nat)                                  // a holder lets its buffer go
    | Clear(holder: nat, id: nat)                                    // `put`, size test and clearing
    | Push(holder: nat, id: nat)                                     // `put`, second half

  const MAX_POOLED_BUFFERS := 256
  const MAX_POOLED_BUFFER_SIZE := 16384

  /** `held` can be written to; `returning` are inside a `put`.  `handed` is what `get` gave
      out, and `pushed` and `popped` what went through the queue. */
  datatype World = World(
    buffers: seq<Buffer>, pool: seq<nat>, held: set<Claim>, returning: set<Claim>, dropped: set<nat>,
    handed: seq<Buffer>, pushed: seq<nat>, popped: seq<nat>)

  function Initial(): World {
    World([], [], {}, {}, {}, [], [], [])
  }

  function Grant(w: World, holder: nat, buffer: Buffer): World {
    w.(buffers := w.buffers + [buffer], held := w.held + {Claim(holder, |w.buffers|)})
  }

  function Next(size: nat, w: World, step: Step): World {
    match step
    case Pop(h) =>
      if w.pool == [] then w
      else
        var id := w.pool[0];
        w.(pool := w.pool[1..], held := w.held + {Claim(h, id)}, popped := w.popped + [id],
           handed := if id < |w.buffers| then w.handed + [w.buffers[id]] else w.handed)
    case Allocate(h) =>
      Grant(w, h, Buffer("", size)).(handed := w.handed + [Buffer("", size)])
    case Create(h, buffer) => Grant(w, h, buffer)
    case Write(h, id, buffer) =>
      if Claim(h, id) in w.held && id < |w.buffers| then w.(buffers := w.buffers[id := buffer]) else w
    case Release(h, id) =>
      if Claim(h, id) in w.held then w.(held := w.held - {Claim(h, id)}, dropped := w.dropped + {id}) else w
    case Clear(h, id) =>
      if Claim(h, id) !in w.held || id >= |w.buffers| then w
      else if w.buffers[id].capacity > MAX_POOLED_BUFFER_SIZE then
        w.(held := w.held - {Claim(h, id)}, dropped := w.dropped + {id})
      else
        w.(held := w.held - {Claim(h, id)}, returning := w.returning + {Claim(h, id)},
           buffers := w.buffers[id := w.buffers[id].(content := "")])
    case Push(h, id) =>
      if Claim(h, id) !in w.returning then w
      else if |w.pool| >= MAX_POOLED_BUFFERS then
        w.(returning := w.returning - {Claim(h, id)}, dropped := w.dropped + {id})
      else
        w.(returning := w.returning - {Claim(h, id)}, pool := w.pool + [id], pushed := w.pushed + [id])
  }

  function Run(size: nat, steps: seq<Step>): World {
    if steps == [] then Initial()
    else Next(size, Run(size, steps[..|steps| - 1]), steps[|steps| - 1])
  }

  // ----- Ownership -----

  ghost predicate InHand(w: World, id: nat) {
    exists c :: c in w.held + w.returning && c.id == id
  }

  /** Each buffer is in exactly one of the pool (once), one holder's hands, or the dropped. */
  ghost predicate Owned(w: World, id: nat) {
    && (id in w.pool || InHand(w, id) || id in w.dropped)
    && !(id in w.pool && InHand(w, id)) && !(id in w.pool && id in w.dropped)
    && !(InHand(w, id) && id in w.dropped)
  }

  ghost predicate Exclusive(w: World) {
    && (forall id :: 0 <= id < |w.buffers| ==> Owned(w, id))
    && (forall i :: 0 <= i < |w.pool| ==> w.pool[i] < |w.buffers|)
    && (forall i, j :: 0 <= i < j < |w.pool| ==> w.pool[i] != w.pool[j])
    && (forall c :: c in w.held + w.returning ==> c.id < |w.buffers|)
    && (forall c, d :: c in w.held + w.returning && d in w.held + w.returning && c.id == d.id ==> c == d)
    && w.held !! w.returning
    && (forall id :: id in w.dropped ==> id < |w.buffers|)
  }

  ghost predicate Poolable(b: Buffer) {
    b.content == "" && b.capacity <= MAX_POOLED_BUFFER_SIZE
  }

  ghost predicate Clean(size: nat, w: World) {
    && |w.pool| <= MAX_POOLED_BUFFERS
    && (forall i :: 0 <= i < |w.pool| ==> w.pool[i] < |w.buffers| && Poolable(w.buffers[w.pool[i]]))
    && (forall c :: c in w.returning ==> c.id < |w.buffers| && Poolable(w.buffers[c.id]))
    && (forall i :: 0 <= i < |w.handed| ==> w.handed[i] == Buffer("", size) || Poolable(w.handed[i]))
    && w.pushed == w.popped + w.pool
  }

  /** Everything a run keeps. */
  ghost predicate Sound(size: nat, w: World) {
    Exclusive(w) && Clean(size, w)
  }

  /** Exclusiveness depends only on who has what. */
  lemma SameOwners(w: World, v: World)
    requires Exclusive(w) && |v.buffers| == |w.buffers| && v.pool == w.pool && v.dropped == w.dropped
    requires v.held + v.returning == w.held + w.returning && v.held !! v.returning
    ensures Exclusive(v)
  {
    forall id | 0 <= id < |v.buffers| ensures Owned(v, id) {
      assert Owned(w, id) && InHand(w, id) == InHand(v, id);
    }
  }

  lemma GrantExclusive(w: World, holder: nat, buffer: Buffer)
    requires Exclusive(w)
    ensures Exclusive(Grant(w, holder, buffer))
  {
    var v := Grant(w, holder, buffer);
    var claim := Claim(holder, |w.buffers|);
    assert claim in v.held + v.returning;
    forall id | 0 <= id < |v.buffers| ensures Owned(v, id) {
      if id < |w.buffers| {
        assert Owned(w, id) && InHand(w, id) == InHand(v, id) by { KeptInHand(w, v, id); }
      }
    }
  }

  /** Claims on other buffers do not matter to who has this one. */
  lemma KeptInHand(w: World, v: World, id: nat)
    requires forall c: Claim :: c.id == id ==> (c in w.held + w.returning <==> c in v.held + v.returning)
    ensures InHand(w, id) == InHand(v, id)
  {
  }

  lemma PopExclusive(w: World, v: World, c: Claim)
    requires Exclusive(w) && w.pool != [] && c.id == w.pool[0]
    requires v.buffers == w.buffers && v.pool == w.pool[1..] && v.held == w.held + {c}
    requires v.returning == w.returning && v.dropped == w.dropped
    ensures Exclusive(v)
  {
    assert w.pool[0] in w.pool && Owned(w, c.id);
    assert c in v.held + v.returning;
    forall id | 0 <= id < |v.buffers| ensures Owned(v, id) {
      assert Owned(w, id);
      if id != c.id {
        KeptInHand(w, v, id);
        assert id in w.pool ==> id in v.pool;
      }
    }
  }

  /** A claim given up: its buffer goes to the dropped, or to the end of the pool. */
  lemma GiveUpExclusive(w: World, v: World, c: Claim)
    requires Exclusive(w) && c in w.held + w.returning && v.buffers == w.buffers
    requires v.held + v.returning == w.held + w.returning - {c} && v.held !! v.returning
    requires || (v.pool == w.pool && v.dropped == w.dropped + {c.id})
             || (v.pool == w.pool + [c.id] && v.dropped == w.dropped)
    ensures Exclusive(v)
  {
    assert Owned(w, c.id) && InHand(w, c.id);
    assert !InHand(v, c.id);
    forall id | 0 <= id < |v.buffers| ensures Owned(v, id) {
      assert Owned(w, id);
      if id != c.id {
        KeptInHand(w, v, id);
      }
    }
  }

  lemma Apart(w: World)
    requires Exclusive(w)
    ensures w.held !! w.returning
  {
  }

  lemma {:induction false} NextExclusive(size: nat, w: World, step: Step)
    requires Exclusive(w)
    ensures Exclusive(Next(size, w, step))
  {
    hide Exclusive;
    Apart(w);
    var v := Next(size, w, step);
    match step
    case Pop(h) =>
      if w.pool != [] {
        PopExclusive(w, v, Claim(h, w.pool[0]));
      }
    case Allocate(h) =>
      GrantExclusive(w, h, Buffer("", size));
      SameOwners(Grant(w, h, Buffer("", size)), v);
    case Create(h, buffer) =>
      GrantExclusive(w, h, buffer);
    case Write(h, id, buffer) =>
      SameOwners(w, v);
    case Release(h, id) =>
      if Claim(h, id) in w.held {
        GiveUpExclusive(w, v, Claim(h, id));
      }
    case Clear(h, id) =>
      if Claim(h, id) in w.held && id < |w.buffers| {
        if w.buffers[id].capacity > MAX_POOLED_BUFFER_SIZE {
          GiveUpExclusive(w, v, Claim(h, id));
        } else {
          SameOwners(w, v);
        }
      }
    case Push(h, id) =>
      if Claim(h, id) in w.returning {
        GiveUpExclusive(w, v, Claim(h, id));
      }
  }

  /** A buffer in hand but not inside a `put` can be changed without the pool noticing. */
  lemma WriteClean(size: nat, w: World, c: Claim, buffer: Buffer)
    requires Sound(size, w) && c in w.held
    ensures c.id < |w.buffers| && Clean(size, w.(buffers := w.buffers[c.id := buffer]))
  {
    assert c in w.held + w.returning && Owned(w, c.id);
    forall d | d in w.returning ensures d.id != c.id {
      assert d in w.held + w.returning;
    }
    forall i | 0 <= i < |w.pool| ensures w.pool[i] != c.id {
      assert w.pool[i] in w.pool;
    }
  }

  lemma ClearClean(size: nat, w: World, c: Claim)
    requires Sound(size, w) && c in w.held && c.id < |w.buffers|
    ensures Clean(size, Next(size, w, Clear(c.holder, c.id)))
  {
    hide Exclusive;
    WriteClean(size, w, c, w.buffers[c.id].(content := ""));
  }

  lemma PopClean(size: nat, w: World, h: nat)
    requires Clean(size, w) && w.pool != []
    ensures Clean(size, Next(size, w, Pop(h)))
  {
    assert w.pool == [w.pool[0]] + w.pool[1..];
    assert Poolable(w.buffers[w.pool[0]]);
  }

  lemma PushClean(size: nat, w: World, c: Claim)
    requires Clean(size, w) && c in w.returning
    ensures Clean(size, Next(size, w, Push(c.holder, c.id)))
  {
    assert w.popped + (w.pool + [c.id]) == w.popped + w.pool + [c.id];
  }

  lemma GrantClean(size: nat, w: World, h: nat, buffer: Buffer)
    requires Clean(size, w)
    ensures Clean(size, Grant(w, h, buffer))
    ensures buffer == Buffer("", size) ==> Clean(size, Grant(w, h, buffer).(handed := w.handed + [buffer]))
  {
  }

  lemma ReleaseClean(size: nat, w: World, held: set<Claim>, dropped: set<nat>)
    requires Clean(size, w)
    ensures Clean(size, w.(held := held, dropped := dropped))
  {
  }

  lemma {:induction false} NextClean(size: nat, w: World, step: Step)
    requires Sound(size, w)
    ensures Clean(size, Next(size, w, step))
  {
    hide Exclusive, Clean;
    match step
    case Pop(h) =>
      if w.pool != [] {
        PopClean(size, w, h);
      }
    case Allocate(h) =>
      GrantClean(size, w, h, Buffer("", size));
    case Create(h, buffer) =>
      GrantClean(size, w, h, buffer);
    case Write(h, id, buffer) =>
      if Claim(h, id) in w.held && id < |w.buffers| {
        WriteClean(size, w, Claim(h, id), buffer);
      }
    case Release(h, id) =>
      ReleaseClean(size, w, w.held - {Claim(h, id)}, w.dropped + {id});
    case Clear(h, id) =>
      if Claim(h, id) in w.held && id < |w.buffers| {
        ClearClean(size, w, Claim(h, id));
      }
    case Push(h, id) =>
      if Claim(h, id) in w.returning {
        PushClean(size, w, Claim(h, id));
      }
  }

  /** In every interleaving, by any number of holders: each buffer has exactly one owner, the
      pool holds at most 256 empty buffers of at most 16384 bytes, `get` only ever gives out
      empty ones, and buffers leave the pool in the order in which they entered it. */
  lemma {:induction false} RunSound(size: nat, steps: seq<Step>)
    ensures Sound(size, Run(size, steps))
  {
    if steps != [] {
      var before, step := steps[..|steps| - 1], steps[|steps| - 1];
      RunSound(size, before);
      NextSound(size, Run(size, before), step);
    }
  }

  lemma NextSound(size: nat, w: World, step: Step)
    requires Sound(size, w)
    ensures Sound(size, Next(size, w, step))
  {
    NextExclusive(size, w, step);
    NextClean(size, w, step);
  }

  lemma InitialSound(size: nat)
    ensures Sound(size, Initial())
  {
  }

  /** Taking or adding a buffer leaves the others as they are. */
  lemma NextKeepsBuffers(size: nat, w: World, step: Step)
    requires step.Pop? || step.Allocate?
    ensures w.buffers <= Next(size, w, step).buffers
  {
  }

  lemma PutSound(size: nat, w: World, holder: nat, id: nat, buffer: Buffer)
    requires Sound(size, w)
    ensures var written := Next(size, w, Write(holder, id, buffer));
      Sound(size, Next(size, Next(size, written, Clear(holder, id)), Push(holder, id)))
  {
    hide Sound, Next;
    var written := Next(size, w, Write(holder, id, buffer));
    NextSound(size, w, Write(holder, id, buffer));
    NextSound(size, written, Clear(holder, id));
    NextSound(size, Next(size, written, Clear(holder, id)), Push(holder, id));
  }

  /** What a `put` does to the pool and to the buffers. */
  lemma PutShape(size: nat, w: World, holder: nat, id: nat, buffer: Buffer)
    requires Sound(size, w) && Claim(holder, id) in w.held
    ensures var written := Next(size, w, Write(holder, id, buffer));
      var after := Next(size, Next(size, written, Clear(holder, id)), Push(holder, id));
      var fits := buffer.capacity <= MAX_POOLED_BUFFER_SIZE;
      && id < |w.buffers| == |after.buffers|
      && after.pool == (if fits && |w.pool| < MAX_POOLED_BUFFERS then w.pool + [id] else w.pool)
      && after.buffers[id] == (if fits then buffer.(content := "") else buffer)
      && (forall i :: 0 <= i < |w.buffers| && i != id ==> after.buffers[i] == w.buffers[i])
      && (forall i :: 0 <= i < |w.pool| ==> w.pool[i] != id)
  {
    var c := Claim(holder, id);
    assert c in w.held + w.returning && Owned(w, id) && InHand(w, id);
    assert c !in w.returning;
    forall i | 0 <= i < |w.pool| ensures w.pool[i] != id {
      assert w.pool[i] in w.pool;
    }
  }

  /** Two claims never name the same buffer, and a claimed buffer is neither pooled nor dropped. */
  lemma {:induction false} OneOwner(size: nat, steps: seq<Step>, c: Claim, d: Claim)
    requires var w := Run(size, steps); c in w.held + w.returning && d in w.held + w.returning
    ensures c != d ==> c.id != d.id
    ensures c.id !in Run(size, steps).pool && c.id !in Run(size, steps).dropped
  {
    hide Run;
    RunSound(size, steps);
    var w := Run(size, steps);
    assert Owned(w, c.id);
  }
}

/** The pool itself: whole calls, each of which is a few steps of the protocol. */
module BufferPools {
  import opened PoolProtocol

  class BytesMut {
    var content: string
    var capacity: nat

    constructor (capacity: nat)
      ensures content == "" && this.capacity == capacity
    {
      content, this.capacity := "", capacity;
    }

    method Clear()
      modifies this`content
      ensures content == ""
    {
      content := "";
    }
  }

  /** `objects[id]` is the buffer that the protocol calls `id`. */
  class BufferPool {
    const bufferSize: nat
    var pool: seq<BytesMut>
    ghost var world: World
    ghost var objects: seq<BytesMut>

    ghost predicate Valid()
      reads this, pool
    {
      && Sound(bufferSize, world)
      && |objects| == |world.buffers| && (forall i, j :: 0 <= i < j < |objects| ==> objects[i] != objects[j])
      && |pool| == |world.pool|
      && (forall i :: 0 <= i < |pool| ==> world.pool[i] < |objects| && pool[i] == objects[world.pool[i]])
      && (forall i :: 0 <= i < |pool| ==> Buffer(pool[i].content, pool[i].capacity) == world.buffers[world.pool[i]])
    }

    constructor (bufferSize: nat)
      ensures Valid() && this.bufferSize == bufferSize && world == Initial() && pool == []
    {
      this.bufferSize, pool, world, objects := bufferSize, [], Initial(), [];
      new;
      InitialSound(bufferSize);
    }

    lemma PoolFacts()
      requires Valid()
      ensures |pool| <= MAX_POOLED_BUFFERS
      ensures forall i :: 0 <= i < |pool| ==> pool[i].content == "" && pool[i].capacity <= MAX_POOLED_BUFFER_SIZE
      ensures forall i, j :: 0 <= i < j < |pool| ==> pool[i] != pool[j]
    {
      forall i | 0 <= i < |pool| ensures Poolable(world.buffers[world.pool[i]]) {
      }
    }

    /** The oldest pooled buffer, or a new one; empty either way.  One or two halves of a `get`. */
    method Get(ghost holder: nat) returns (buf: BytesMut, ghost id: nat)
      requires Valid()
      modifies this
      ensures Valid() && buf.content == ""
      ensures if old(pool) == [] then fresh(buf) && buf.capacity == bufferSize && pool == []
              else old(pool) == [buf] + pool && buf.capacity <= MAX_POOLED_BUFFER_SIZE
      ensures world == Next(bufferSize, old(world), if old(pool) == [] then Allocate(holder) else Pop(holder))
      ensures id < |objects| && objects[id] == buf && Claim(holder, id) in world.held
    {
      hide Sound;
      PoolFacts();
      ghost var step := if pool == [] then Allocate(holder) else Pop(holder);
      NextSound(bufferSize, world, step);
      NextKeepsBuffers(bufferSize, world, step);
      if pool == [] {
        buf := new BytesMut(bufferSize);
        id := |objects|;
        objects := objects + [buf];
      } else {
        buf, id := pool[0], world.pool[0];
        pool := pool[1..];
      }
      world := Next(bufferSize, world, step);
    }

    /** A buffer made elsewhere comes into a holder's hands. */
    ghost method Adopt(holder: nat, buf: BytesMut) returns (id: nat)
      requires Valid() && buf !in objects
      modifies this`world, this`objects
      ensures Valid() && world == Next(bufferSize, old(world), Create(holder, Buffer(buf.content, buf.capacity)))
      ensures objects == old(objects) + [buf] && id == |old(objects)| && Claim(holder, id) in world.held
    {
      hide Sound;
      var step := Create(holder, Buffer(buf.content, buf.capacity));
      NextSound(bufferSize, world, step);
      id := |objects|;
      objects := objects + [buf];
      world := Next(bufferSize, world, step);
    }

    /** The steps of a `put`, after the holder's last writes to the buffer. */
    ghost function AfterPut(w: World, holder: nat, id: nat, buffer: Buffer): World
      reads this
    {
      var written := Next(bufferSize, w, Write(holder, id, buffer));
      Next(bufferSize, Next(bufferSize, written, Clear(holder, id)), Push(holder, id))
    }

    /** Oversized buffers are dropped as they are; the others are cleared and kept while there
        is room.  The two halves of a `put`. */
    method Put(buf: BytesMut, ghost holder: nat, ghost id: nat)
      requires Valid() && id < |objects| && objects[id] == buf && Claim(holder, id) in world.held
      modifies this`pool, this`world, buf`content
      ensures Valid()
      ensures world == AfterPut(old(world), holder, id, old(Buffer(buf.content, buf.capacity)))
      ensures var fits := buf.capacity <= 16384;
        && buf.content == (if fits then "" else old(buf.content))
        && pool == (if fits && |old(pool)| < 256 then old(pool) + [buf] else old(pool))
    {
      hide Sound;
      ghost var given := Buffer(buf.content, buf.capacity);
      PutSound(bufferSize, world, holder, id, given);
      PutShape(bufferSize, world, holder, id, given);
      world := AfterPut(world, holder, id, given);
      if buf.capacity <= MAX_POOLED_BUFFER_SIZE {
        buf.Clear();
        if |pool| < MAX_POOLED_BUFFERS {
          pool := pool + [buf];
        }
      }
    }

    /** The pool also takes buffers that it never gave out. */
    method PutMade(buf: BytesMut, ghost holder: nat)
      requires Valid() && buf !in objects
      modifies this`pool, this`world, this`objects, buf`content
      ensures Valid() && buf in objects
      ensures var given := old(Buffer(buf.content, buf.capacity));
        world == AfterPut(Next(bufferSize, old(world), Create(holder, given)), holder, |old(objects)|, given)
      ensures var fits := buf.capacity <= 16384;
        && buf.content == (if fits then "" else old(buf.content))
        && pool == (if fits && |old(pool)| < 256 then old(pool) + [buf] else old(pool))
    {
      hide Sound, Next;
      ghost var id := Adopt(holder, buf);
      Put(buf, holder, id);
    }
  }
}
