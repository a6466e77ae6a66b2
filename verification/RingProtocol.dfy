/**
 The single-producer single-consumer ring (lib/ring_buffer/ring_buffer.c) with producer and consumer
 interleaved at every memory access: each side loads the other's index once, touches bytes one by
 one, and publishes its own index at the end.  Indices run freely in 32 bits.  Memory accesses take
 effect in program order.
 */
module RingProtocol {
  import opened Bits32
  import opened Wrap32
  import opened Windows

  type Byte = bv8

  datatype Producer = Out | Filling(data: seq<Byte>, n: nat, stored: nat)
  datatype Consumer = Off | Draining(n: nat, got: seq<Byte>)

  datatype Ring = Ring(buf: seq<Byte>, head: nat, tail: nat, producer: Producer, consumer: Consumer)

  datatype Action =
    | PutByte(b: Byte)            // vibe_rb_put: test for room
    | PutBuf(data: seq<Byte>)     // vibe_rb_put_buf: count the room
    | Store                       // one byte of data
    | PublishTail
    | GetByte                     // vibe_rb_get: test for data
    | GetBuf(len: nat)            // vibe_rb_get_buf: count the data
    | Load                        // one byte of data
    | PublishHead

  /** `_mask` */
  function Mask(r: Ring, index: nat): nat
    requires |r.buf| > 0
  {
    And(index, |r.buf| - 1)
  }

  /** Where byte `j` of a transfer that starts at `index` goes: up to the end of the buffer, then from its start */
  function ChunkSlot(r: Ring, index: nat, j: nat): int
    requires |r.buf| > 0
  {
    var first := Mask(r, index);
    var chunk := |r.buf| - first;
    if j < chunk then first + j else j - chunk
  }

  /** `vibe_rb_used` */
  function Used(r: Ring): nat
    requires r.head < WORD
  {
    Minus(r.tail, r.head)
  }

  predicate Enabled(r: Ring, a: Action)
  {
    match a
    case PutByte(_) => r.producer.Out?
    case PutBuf(_) => r.producer.Out?
    case Store => r.producer.Filling? && r.producer.stored < r.producer.n
    case PublishTail => r.producer.Filling? && r.producer.stored == r.producer.n
    case GetByte => r.consumer.Off?
    case GetBuf(_) => r.consumer.Off?
    case Load => r.consumer.Draining? && |r.consumer.got| < r.consumer.n
    case PublishHead => r.consumer.Draining? && |r.consumer.got| == r.consumer.n
  }

  /** Memory accesses hit the buffer. */
  predicate InBounds(r: Ring, a: Action)
    requires |r.buf| > 0
  {
    && r.head < WORD
    && Used(r) <= |r.buf|
    && (a.Store? && r.producer.Filling? ==>
          r.producer.stored < |r.producer.data| && 0 <= ChunkSlot(r, r.tail, r.producer.stored) < |r.buf|)
    && (a.Load? && r.consumer.Draining? ==> 0 <= ChunkSlot(r, r.head, |r.consumer.got|) < |r.buf|)
  }

  function Step(r: Ring, a: Action): Ring
    requires |r.buf| > 0 && Enabled(r, a) && InBounds(r, a)
  {
    match a
    case PutByte(b) => r.(producer := Filling([b], if Used(r) == |r.buf| then 0 else 1, 0))
    case PutBuf(data) => r.(producer := Filling(data, Min(|data|, |r.buf| - Used(r)), 0))
    case Store =>
      var p := r.producer;
      r.(buf := r.buf[ChunkSlot(r, r.tail, p.stored) := p.data[p.stored]], producer := p.(stored := p.stored + 1))
    case PublishTail => r.(tail := Wrap(r.tail + r.producer.n), producer := Out)
    case GetByte => r.(consumer := Draining(if r.head == r.tail then 0 else 1, []))
    case GetBuf(len) => r.(consumer := Draining(Min(len, Used(r)), []))
    case Load =>
      var c := r.consumer;
      r.(consumer := c.(got := c.got + [r.buf[ChunkSlot(r, r.head, |c.got|)]]))
    case PublishHead => r.(head := Wrap(r.head + r.consumer.n), consumer := Off)
  }

  /** The bytes that an action hands over to the ring for good */
  function Accepted(r: Ring, a: Action): seq<Byte>
  {
    if a.PublishTail? && r.producer.Filling? && r.producer.n <= |r.producer.data|
    then r.producer.data[..r.producer.n]
    else []
  }

  /** The bytes that an action hands over to the consumer for good */
  function Delivered(r: Ring, a: Action): seq<Byte>
  {
    if a.PublishHead? && r.consumer.Draining? then r.consumer.got else []
  }

  // ---------- the invariant ----------

  predicate SizeOk(size: nat) { IsPowerOfTwo(size) && size < WORD }

  /** Byte `i` of the whole stream `s` is in its slot. */
  ghost predicate Holds(r: Ring, s: seq<Byte>, i: nat)
    requires |r.buf| > 0 && i < |s|
  {
    At(r.buf, i) == s[i]
  }

  /** The stream so far and what the producer has stored but not yet published */
  ghost function Stored(r: Ring, w: seq<Byte>): seq<Byte>
  {
    if r.producer.Filling? && r.producer.stored <= |r.producer.data|
    then w + r.producer.data[..r.producer.stored]
    else w
  }

  /**
   With `w` all bytes ever published and `d` all bytes ever delivered: the indices are the two
   lengths modulo 2^32, and every byte that is not delivered yet is in its slot.
   */
  ghost predicate Inv(r: Ring, w: seq<Byte>, d: seq<Byte>)
  {
    && SizeOk(|r.buf|)
    && r.head == Wrap(|d|) && r.tail == Wrap(|w|)
    && d <= w && |w| <= |d| + |r.buf|
    && (forall i {:trigger Holds(r, Stored(r, w), i)} :: |d| <= i < |Stored(r, w)| ==> Holds(r, Stored(r, w), i))
    && (r.producer.Filling? ==>
          r.producer.stored <= r.producer.n <= |r.producer.data| && |w| + r.producer.n <= |d| + |r.buf|)
    && (r.consumer.Draining? ==>
          |r.consumer.got| <= r.consumer.n && |d| + r.consumer.n <= |w|
          && r.consumer.got == w[|d|..|d| + |r.consumer.got|])
  }

  /** `vibe_rb_init` */
  function Fresh(buf: seq<Byte>): Ring { Ring(buf, 0, 0, Out, Off) }

  lemma FreshInv(buf: seq<Byte>)
    requires SizeOk(|buf|)
    ensures Inv(Fresh(buf), [], [])
  {
  }

  // ---------- addressing ----------

  /** Masked, chunked and wrapped, byte `j` of a transfer still lands on its own slot. */
  lemma ChunkSlotIsMod(r: Ring, x: nat, j: nat)
    requires SizeOk(|r.buf|) && j < |r.buf|
    ensures ChunkSlot(r, Wrap(x), j) == Slot(x + j, |r.buf|)
  {
    var size := |r.buf|;
    PowerOfTwoTest(size);
    var k: nat :| size == Pow2(k);
    MaskIsMod(Wrap(x), k);
    SizeDividesWord(k);
    WrapKeepsSlot(x, size, Pow2(32 - k));
    AddSlot(x, j, size);
  }

  /** Under the invariant every memory access is in bounds and the loaded counts are exact. */
  lemma CountsExact(r: Ring, w: seq<Byte>, d: seq<Byte>)
    requires Inv(r, w, d)
    ensures |r.buf| > 0 && Used(r) == |w| - |d|
    ensures r.head == r.tail <==> |w| == |d|
  {
    MinusExact(|w|, |d|);
    WrapEqual(|w|, |d|);
  }

  /**
   How much a transfer takes on, by the bytes published and delivered so far: a put as much of its data as
   there is room for, a get as much of what is there as was asked for; nothing is accepted or delivered
   until the transfer is complete.
   */
  lemma TransfersAllThatFits(r: Ring, w: seq<Byte>, d: seq<Byte>, b: Byte, data: seq<Byte>, len: nat)
    requires Inv(r, w, d)
    ensures |r.buf| > 0
    ensures r.producer.Out? ==>
              && InBounds(r, PutByte(b)) && InBounds(r, PutBuf(data))
              && Step(r, PutByte(b)) == r.(producer := Filling([b], if |w| == |d| + |r.buf| then 0 else 1, 0))
              && Step(r, PutBuf(data)) == r.(producer := Filling(data, Min(|data|, |d| + |r.buf| - |w|), 0))
    ensures r.consumer.Off? ==>
              && InBounds(r, GetByte) && InBounds(r, GetBuf(len))
              && Step(r, GetByte) == r.(consumer := Draining(if |w| == |d| then 0 else 1, []))
              && Step(r, GetBuf(len)) == r.(consumer := Draining(Min(len, |w| - |d|), []))
  {
    CountsExact(r, w, d);
  }

  lemma AccessInBounds(r: Ring, w: seq<Byte>, d: seq<Byte>, a: Action)
    requires Inv(r, w, d) && Enabled(r, a)
    ensures |r.buf| > 0 && InBounds(r, a)
    ensures a.Store? ==> ChunkSlot(r, r.tail, r.producer.stored) == Slot(|w| + r.producer.stored, |r.buf|)
    ensures a.Load? ==> ChunkSlot(r, r.head, |r.consumer.got|) == Slot(|d| + |r.consumer.got|, |r.buf|)
  {
    CountsExact(r, w, d);
    if a.Store? {
      ChunkSlotIsMod(r, |w|, r.producer.stored);
    }
    if a.Load? {
      ChunkSlotIsMod(r, |d|, |r.consumer.got|);
    }
  }

  /** A store never hits the slot of a byte that is still to be read. */
  lemma StoreHitsNoUnread(r: Ring, w: seq<Byte>, d: seq<Byte>, i: nat)
    requires Inv(r, w, d) && Enabled(r, Store) && |d| <= i < |w| + r.producer.stored
    ensures |r.buf| > 0 && Slot(i, |r.buf|) != ChunkSlot(r, r.tail, r.producer.stored)
  {
    AccessInBounds(r, w, d, Store);
    SlotsApart(i, |w| + r.producer.stored, |r.buf|);
  }

  // ---------- every step keeps the invariant ----------

  lemma StoreInv(r: Ring, w: seq<Byte>, d: seq<Byte>)
    requires Inv(r, w, d) && Enabled(r, Store) && |r.buf| > 0 && InBounds(r, Store)
    ensures Inv(Step(r, Store), w, d)
  {
    hide ChunkSlot, IsPowerOfTwo;
    var r' := Step(r, Store);
    AccessInBounds(r, w, d, Store);
    var p := r.producer;
    assert Stored(r', w) == Stored(r, w) + [p.data[p.stored]];
    forall i | |d| <= i < |Stored(r', w)|
      ensures Holds(r', Stored(r', w), i)
    {
      if i < |Stored(r, w)| {
        assert Holds(r, Stored(r, w), i);
        StoreHitsNoUnread(r, w, d, i);
      }
    }
  }

  lemma LoadInv(r: Ring, w: seq<Byte>, d: seq<Byte>)
    requires Inv(r, w, d) && Enabled(r, Load) && |r.buf| > 0 && InBounds(r, Load)
    ensures Inv(Step(r, Load), w, d)
  {
    var r' := Step(r, Load);
    AccessInBounds(r, w, d, Load);
    var i := |d| + |r.consumer.got|;
    assert Holds(r, Stored(r, w), i) && Stored(r, w)[i] == w[i];
    SameBytes(r, r', w, w, |d|, |d|);
  }

  lemma SameBytes(r: Ring, r': Ring, w: seq<Byte>, w': seq<Byte>, from: nat, from': nat)
    requires r'.buf == r.buf && |r.buf| > 0 && from <= from' && Stored(r', w') == Stored(r, w)
    requires forall i {:trigger Holds(r, Stored(r, w), i)} :: from <= i < |Stored(r, w)| ==> Holds(r, Stored(r, w), i)
    ensures forall i {:trigger Holds(r', Stored(r', w'), i)} :: from' <= i < |Stored(r', w')| ==>
            Holds(r', Stored(r', w'), i)
  {
    forall i | from' <= i < |Stored(r', w')|
      ensures Holds(r', Stored(r', w'), i)
    {
      assert Holds(r, Stored(r, w), i);
    }
  }

  lemma PublishTailInv(r: Ring, w: seq<Byte>, d: seq<Byte>)
    requires Inv(r, w, d) && Enabled(r, PublishTail) && |r.buf| > 0 && InBounds(r, PublishTail)
    ensures Inv(Step(r, PublishTail), w + Accepted(r, PublishTail), d)
  {
    var r' := Step(r, PublishTail);
    var w' := w + Accepted(r, PublishTail);
    WrapAdd(|w|, r.producer.n);
    SameBytes(r, r', w, w', |d|, |d|);
    if r.consumer.Draining? {
      assert w'[|d|..|d| + |r.consumer.got|] == w[|d|..|d| + |r.consumer.got|];
    }
  }

  lemma PublishHeadInv(r: Ring, w: seq<Byte>, d: seq<Byte>)
    requires Inv(r, w, d) && Enabled(r, PublishHead) && |r.buf| > 0 && InBounds(r, PublishHead)
    ensures Inv(Step(r, PublishHead), w, d + Delivered(r, PublishHead))
  {
    var r' := Step(r, PublishHead);
    var d' := d + Delivered(r, PublishHead);
    WrapAdd(|d|, r.consumer.n);
    assert d' == w[..|d'|];
    SameBytes(r, r', w, w, |d|, |d'|);
  }

  lemma BeginInv(r: Ring, w: seq<Byte>, d: seq<Byte>, a: Action)
    requires Inv(r, w, d) && Enabled(r, a) && |r.buf| > 0 && InBounds(r, a)
    requires a.PutByte? || a.PutBuf? || a.GetByte? || a.GetBuf?
    ensures Inv(Step(r, a), w, d)
  {
    CountsExact(r, w, d);
    SameBytes(r, Step(r, a), w, w, |d|, |d|);
  }

  /** Whatever either side does next, the stream stays intact. */
  lemma StepInv(r: Ring, w: seq<Byte>, d: seq<Byte>, a: Action)
    requires Inv(r, w, d) && Enabled(r, a)
    ensures |r.buf| > 0 && InBounds(r, a)
    ensures Inv(Step(r, a), w + Accepted(r, a), d + Delivered(r, a))
  {
    AccessInBounds(r, w, d, a);
    match a
    case Store =>
      assert w + [] == w && d + [] == d;
      StoreInv(r, w, d);
    case Load =>
      assert w + [] == w && d + [] == d;
      LoadInv(r, w, d);
    case PublishTail =>
      assert d + [] == d;
      PublishTailInv(r, w, d);
    case PublishHead =>
      assert w + [] == w;
      PublishHeadInv(r, w, d);
    case _ =>
      assert w + [] == w && d + [] == d;
      BeginInv(r, w, d, a);
  }

  // ---------- runs ----------

  /** A run: every action is enabled where it happens. */
  ghost predicate ValidRun(r: Ring, actions: seq<Action>)
    decreases |actions|
  {
    actions != [] ==>
      && |r.buf| > 0 && Enabled(r, actions[0]) && InBounds(r, actions[0])
      && ValidRun(Step(r, actions[0]), actions[1..])
  }

  ghost function Last(r: Ring, actions: seq<Action>): Ring
    requires ValidRun(r, actions)
    decreases |actions|
  {
    if actions == [] then r else Last(Step(r, actions[0]), actions[1..])
  }

  ghost function AllAccepted(r: Ring, actions: seq<Action>): seq<Byte>
    requires ValidRun(r, actions)
    decreases |actions|
  {
    if actions == [] then [] else Accepted(r, actions[0]) + AllAccepted(Step(r, actions[0]), actions[1..])
  }

  ghost function AllDelivered(r: Ring, actions: seq<Action>): seq<Byte>
    requires ValidRun(r, actions)
    decreases |actions|
  {
    if actions == [] then [] else Delivered(r, actions[0]) + AllDelivered(Step(r, actions[0]), actions[1..])
  }

  lemma {:induction false} RunInv(r: Ring, w: seq<Byte>, d: seq<Byte>, actions: seq<Action>)
    requires Inv(r, w, d) && ValidRun(r, actions)
    ensures Inv(Last(r, actions), w + AllAccepted(r, actions), d + AllDelivered(r, actions))
    decreases |actions|
  {
    hide Inv, Step, Accepted, Delivered, InBounds;
    if actions == [] {
      assert w + [] == w && d + [] == d;
    } else {
      var a, r' := actions[0], Step(r, actions[0]);
      StepInv(r, w, d, a);
      RunInv(r', w + Accepted(r, a), d + Delivered(r, a), actions[1..]);
      assert w + AllAccepted(r, actions) == w + Accepted(r, a) + AllAccepted(r', actions[1..]);
      assert d + AllDelivered(r, actions) == d + Delivered(r, a) + AllDelivered(r', actions[1..]);
    }
  }

  /**
   However producer and consumer interleave, and however often the indices wrap: the bytes delivered
   are a prefix of the bytes accepted, and the rest is in the ring.
   */
  lemma StreamIntact(buf: seq<Byte>, actions: seq<Action>)
    requires SizeOk(|buf|) && ValidRun(Fresh(buf), actions)
    ensures var r, w, d := Last(Fresh(buf), actions), AllAccepted(Fresh(buf), actions),
                           AllDelivered(Fresh(buf), actions);
            && |r.buf| > 0 && |d| <= |w| <= |d| + |r.buf|
            && w == d + Window(r.buf, |d|, |w| - |d|)
  {
    hide Inv, ValidRun, Last, AllAccepted, AllDelivered;
    FreshInv(buf);
    RunInv(Fresh(buf), [], [], actions);
    var r, w, d := Last(Fresh(buf), actions), AllAccepted(Fresh(buf), actions), AllDelivered(Fresh(buf), actions);
    assert [] + w == w && [] + d == d;
    RingHoldsRest(r, w, d);
  }

  lemma RingHoldsRest(r: Ring, w: seq<Byte>, d: seq<Byte>)
    requires Inv(r, w, d)
    ensures |r.buf| > 0 && |d| <= |w| <= |d| + |r.buf|
    ensures w == d + Window(r.buf, |d|, |w| - |d|)
  {
    hide At;
    CountsExact(r, w, d);
    forall i {:trigger At(r.buf, i)} | |d| <= i < |w|
      ensures At(r.buf, i) == w[|d|..][i - |d|]
    {
      assert Holds(r, Stored(r, w), i) && Stored(r, w)[i] == w[i];
    }
    WindowIs(r.buf, |d|, w[|d|..]);
    assert w == d + w[|d|..];
  }

  /** No enabled access ever leaves the buffer, so a run is only a matter of who moves next. */
  lemma RunsExtend(buf: seq<Byte>, actions: seq<Action>, a: Action)
    requires SizeOk(|buf|) && ValidRun(Fresh(buf), actions) && Enabled(Last(Fresh(buf), actions), a)
    ensures |Last(Fresh(buf), actions).buf| > 0 && InBounds(Last(Fresh(buf), actions), a)
  {
    FreshInv(buf);
    RunInv(Fresh(buf), [], [], actions);
    AccessInBounds(Last(Fresh(buf), actions), [] + AllAccepted(Fresh(buf), actions),
                   [] + AllDelivered(Fresh(buf), actions), a);
  }
}
