/**
 The completion ring and the event loop as objects.

 The ring's head and tail are 32-bit counters that wrap; a slot is a counter's remainder. The kernel posts at the
 tail while the loop runs. Each method does to the pending completions what the functions of `CompletionLoop` say.
 */
module CompletionRing {
  import opened CompletionLoop

  const WORD: nat := 0x1_0000_0000

  // ---- Counters and slots ----

  /** The slot of a counter value: the mask of a ring whose size is a power of two. */
  function Slot(counter: nat, size: nat): (r: nat)
    requires size > 0
    ensures r < size
  {
    counter % size
  }

  predicate RingSize(size: nat) {
    0 < size < WORD && WORD % size == 0
  }

  lemma AtLeastOnce(d: nat, p: int, q: int)
    requires p < q
    ensures d * q >= d * p + d
  {
    var k := q - p;
    assert q == p + k && d * (p + k) == d * p + d * k;
  }

  lemma Multiples(d: nat, p: int, q: int)
    ensures p < q ==> d * q >= d * p + d
    ensures q < p ==> d * p >= d * q + d
  {
    if p < q {
      AtLeastOnce(d, p, q);
    } else if q < p {
      AtLeastOnce(d, q, p);
    }
  }

  lemma Remainder(x: int, d: nat, q: int, r: nat)
    requires x == d * q + r && r < d
    ensures x % d == r
  {
    assert x == d * (x / d) + x % d;
    Multiples(d, q, x / d);
  }

  /** A wrap of the counter does not move the slot. */
  lemma SlotsWrap(x: nat, size: nat)
    requires RingSize(size)
    ensures Slot(x + WORD, size) == Slot(x, size)
  {
    var k, q := WORD / size, x / size;
    assert WORD == size * k && x == size * q + x % size;
    assert size * (q + k) == size * q + size * k;
    Remainder(x + WORD, size, q + k, x % size);
  }

  /** Counters less than a ring apart have different slots. */
  lemma SameSlot(a: nat, b: nat, size: nat)
    requires size > 0 && a <= b < a + size && Slot(a, size) == Slot(b, size)
    ensures a == b
  {
    assert a == size * (a / size) + a % size && b == size * (b / size) + b % size;
    Multiples(size, a / size, b / size);
  }

  lemma WrappedSlot(counter: nat, size: nat)
    requires RingSize(size) && counter < 2 * WORD
    ensures Slot(counter % WORD, size) == Slot(counter, size)
  {
    if counter >= WORD {
      SlotsWrap(counter - WORD, size);
    }
  }

  /** Stepping a counter: the slot `i` behind the new head is the slot `i + 1` behind the old one. */
  lemma HeadMoves(h: nat, i: nat, size: nat)
    requires RingSize(size) && h < WORD
    ensures Slot((h + 1) % WORD + i, size) == Slot(h + (i + 1), size)
  {
    if h + 1 == WORD {
      SlotsWrap(i, size);
      assert h + (i + 1) == i + WORD;
    } else {
      assert (h + 1) % WORD + i == h + (i + 1);
    }
  }

  /** One time round. */
  lemma SlotsRepeat(x: nat, size: nat)
    requires size > 0
    ensures Slot(x + size, size) == Slot(x, size)
  {
    assert x == size * (x / size) + x % size;
    assert size * (x / size + 1) == size * (x / size) + size;
    Remainder(x + size, size, x / size + 1, x % size);
  }

  /** Unsigned subtraction. */
  function Distance(khead: nat, ktail: nat): (r: nat)
    ensures khead < WORD && ktail < WORD ==> r == if khead <= ktail then ktail - khead else ktail + WORD - khead
  {
    (ktail - khead) % WORD
  }

  lemma TailIsAhead(khead: nat, ktail: nat)
    requires khead < WORD && ktail < WORD
    ensures ktail == (khead + Distance(khead, ktail)) % WORD
    ensures Distance(khead, ktail) + 1 < WORD ==>
              Distance(khead, (ktail + 1) % WORD) == Distance(khead, ktail) + 1
    ensures Distance(khead, ktail) > 0 ==>
              Distance((khead + 1) % WORD, ktail) == Distance(khead, ktail) - 1
    ensures Distance(khead, ktail) == 0 <==> khead == ktail
  {
    hide Distance;
  }

  // ---- The ring as an object ----

  class Ring {
    const cqes: array<Cqe>
    var khead: nat
    var ktail: nat

    ghost predicate Valid()
      reads this
    {
      RingSize(cqes.Length) && khead < WORD && ktail < WORD && Count() <= cqes.Length
    }

    function Count(): nat
      reads this
    {
      Distance(khead, ktail)
    }

    /** All slots, the oldest completion's first. */
    ghost function Slots(): (r: seq<Cqe>)
      requires Valid()
      reads this, cqes
      ensures |r| == cqes.Length
    {
      FromHead(cqes[..], khead)
    }

    /** The completions between head and tail, oldest first. */
    ghost function Pending(): (r: seq<Cqe>)
      requires Valid()
      reads this, cqes
    {
      Slots()[..Count()]
    }

    constructor (size: nat, at: nat, zero: Cqe)
      requires RingSize(size) && at < WORD
      ensures Valid() && fresh(cqes) && cqes.Length == size && khead == ktail == at && Pending() == []
    {
      cqes := new Cqe[size](_ => zero);
      khead, ktail := at, at;
    }

    /** The iterator's `operator*` at a counter value. */
    function At(head: nat): Cqe
      requires cqes.Length > 0
      reads this, cqes
    {
      cqes[Slot(head, cqes.Length)]
    }

    /** The kernel posts a completion where there is room. */
    method Post(c: Cqe)
      requires Valid() && Count() < cqes.Length
      modifies this`ktail, cqes
      ensures Valid() && Count() == old(Count()) + 1 && Slots() == old(Slots())[old(Count()) := c]
      ensures ktail == (old(ktail) + 1) % 4294967296
      ensures cqes[..] == old(cqes[..])[old(ktail) % cqes.Length := c]
    {
      TailIsAhead(khead, ktail);
      WrappedSlot(khead + Count(), cqes.Length);
      hide Slot, Distance;
      SlotsWritten(cqes[..], khead, Count(), c);
      ghost var was := cqes[..];
      cqes[Slot(ktail, cqes.Length)] := c;
      assert cqes[..] == was[Slot(ktail, cqes.Length) := c];
      ktail := (ktail + 1) % WORD;
    }

    /** `cqe_seen`: the slot of the oldest completion becomes the last one. */
    method CqeSeen()
      requires Valid() && Count() > 0
      modifies this`khead
      ensures Valid() && khead == (old(khead) + 1) % WORD && Count() == old(Count()) - 1
      ensures Slots() == old(Slots())[1..] + [old(Slots())[0]]
      ensures khead == (old(khead) + 1) % 4294967296
    {
      TailIsAhead(khead, ktail);
      hide Slot, Distance;
      SlotsTurn(cqes[..], khead);
      khead := (khead + 1) % WORD;
    }

    /** Pending completions by counter and slot: as many as the wrapping counters are apart, from the head's slot on. */
    lemma PendingInSlots(i: nat)
      requires Valid() && i < Count()
      ensures Count() == if khead <= ktail then ktail - khead else ktail + 4294967296 - khead
      ensures |Pending()| == Count() && Pending()[i] == cqes[(khead + i) % cqes.Length]
    {
    }

    lemma HeadSlot()
      requires Valid() && Count() > 0
      ensures At(khead) == Pending()[0]
    {
      hide Slot, Distance;
      SlotsTurn(cqes[..], khead);
    }

    /** Behind `cqe_seen` the slot that was released is the last one. */
    lemma LastSlot(head: nat)
      requires Valid() && head < WORD && khead == (head + 1) % WORD
      ensures At(head) == Slots()[cqes.Length - 1]
    {
      hide Slot, Distance;
      HeadMoves(head, cqes.Length - 1, cqes.Length);
      SlotsRepeat(head, cqes.Length);
    }
  }

  /** The slots of a ring in the order of the counter. */
  function FromHead(slots: seq<Cqe>, head: nat): (r: seq<Cqe>)
    requires |slots| > 0
    ensures |r| == |slots| && forall i :: 0 <= i < |slots| ==> r[i] == slots[Slot(head + i, |slots|)]
  {
    seq(|slots|, i requires 0 <= i < |slots| => slots[Slot(head + i, |slots|)])
  }

  /** A write at one counter value changes one slot. */
  lemma SlotsWritten(slots: seq<Cqe>, head: nat, k: nat, c: Cqe)
    requires k < |slots|
    ensures FromHead(slots[Slot(head + k, |slots|) := c], head) == FromHead(slots, head)[k := c]
  {
    hide Slot;
    var after, expected := FromHead(slots[Slot(head + k, |slots|) := c], head), FromHead(slots, head)[k := c];
    forall i | 0 <= i < |slots| ensures after[i] == expected[i] {
      if Slot(head + i, |slots|) == Slot(head + k, |slots|) {
        SameSlot(head + if i < k then i else k, head + if i < k then k else i, |slots|);
      }
    }
  }

  lemma SlotsTurn(slots: seq<Cqe>, head: nat)
    requires RingSize(|slots|) && head < WORD
    ensures FromHead(slots, (head + 1) % WORD) == FromHead(slots, head)[1..] + [FromHead(slots, head)[0]]
    ensures slots[Slot(head, |slots|)] == FromHead(slots, head)[0]
  {
    hide Slot;
    var was, now := FromHead(slots, head), FromHead(slots, (head + 1) % WORD);
    var expected := was[1..] + [was[0]];
    assert head + 0 == head;
    forall i | 0 <= i < |slots| ensures now[i] == expected[i] {
      HeadMoves(head, i, |slots|);
      if i + 1 == |slots| {
        SlotsRepeat(head, |slots|);
      }
    }
  }

  /** Slots with the first `i` completions of a batch written behind the first `n`. */
  function Overwritten(slots: seq<Cqe>, n: nat, batch: seq<Cqe>, i: nat): (r: seq<Cqe>)
    requires n + i <= |slots| && i <= |batch|
    ensures |r| == |slots| && r[..n + i] == slots[..n] + batch[..i] && r[n + i..] == slots[n + i..]
    ensures i == 0 ==> r == slots
  {
    slots[..n] + batch[..i] + slots[n + i..]
  }

  lemma OverwritesNext(slots: seq<Cqe>, n: nat, batch: seq<Cqe>, i: nat)
    requires n + i < |slots| && i < |batch|
    ensures Overwritten(slots, n, batch, i)[n + i := batch[i]] == Overwritten(slots, n, batch, i + 1)
  {
  }

  // ---- The event loop as an object ----

  class EventLoop {
    const ring: Ring
    var memory: Memory
    ghost var log: seq<Visit>
    ghost var heard: seq<Read>
    ghost var posted: seq<Cqe>

    ghost predicate Valid()
      reads this, ring
    {
      ring.Valid()
    }

    ghost function State(): (s: Loop)
      requires Valid()
      reads this, ring, ring.cqes
      ensures Fits(s, ring.cqes.Length)
    {
      Loop(ring.Pending(), memory, log, heard, posted)
    }

    constructor (r: Ring)
      requires r.Valid()
      ensures Valid() && ring == r && State() == Loop(r.Pending(), map[], [], [], [])
    {
      ring, memory, log, heard, posted := r, map[], [], [], [];
    }

    /** The kernel at work: it posts what fits. */
    method Deliver(batch: seq<Cqe>)
      requires Valid()
      modifies this`posted, ring`ktail, ring.cqes
      ensures Valid() && State() == Posting(old(State()), batch, ring.cqes.Length)
      ensures ring.Slots()[ring.Count()..] == old(ring.Slots())[ring.Count()..]
    {
      hide Slot, Distance, FromHead, Overwritten, RingSize, Ring.Slots, Ring.Count;
      ghost var slots, n, size := ring.Slots(), ring.Count(), ring.cqes.Length;
      var i := 0;
      ghost var was := State();
      while i < |batch| && ring.Count() < ring.cqes.Length
        invariant i <= |batch| && Valid() && ring.Count() == n + i
        invariant ring.Slots() == Overwritten(slots, n, batch, i) && posted == old(posted)
      {
        OverwritesNext(slots, n, batch, i);
        ring.Post(batch[i]);
        i := i + 1;
      }
      assert batch[..i] == Fitting(was.pending, batch, size);
      posted := posted + batch[..i];
      assert ring.Pending() == was.pending + batch[..i];
    }

    /** The first half of the loop body: the slot's result goes to the cell, and the slot back to the kernel. */
    method Take(head: nat) returns (cqe: Cqe, coroutine: nat)
      requires Valid() && ring.khead == head && ring.Count() > 0
      modifies this`memory, ring`khead
      ensures Valid() && ring.khead == (head + 1) % WORD && ring.Count() == old(ring.Count()) - 1
      ensures var s := old(State());
        && cqe == s.pending[0] && coroutine == Cell(memory, cqe.data).coroutine
        && State() == Taken(s)
      ensures ring.Slots()[ring.cqes.Length - 1] == cqe
    {
      ring.HeadSlot();
      hide Slot, Distance, FromHead, RingSize, Ring.Slots, Ring.Count;
      ghost var was := memory;
      cqe := ring.At(head);
      memory := memory[cqe.data := Cell(memory, cqe.data).(res := cqe.res)];
      memory := memory[cqe.data := Cell(memory, cqe.data).(flags := cqe.flags)];
      assert memory == Stored(was, cqe);
      coroutine := Cell(memory, cqe.data).coroutine;
      ring.CqeSeen();
    }

    /** `resume`: the awaiter takes its result out of the cell; what the coroutine does then may write to any cell. */
    method Resume(at: nat, writes: Memory)
      requires Valid()
      modifies this`memory, this`heard
      ensures Valid() && State() == Ran(old(State()), at, writes)
    {
      var cell := Cell(memory, at);
      heard := heard + [Read(at, cell.res, cell.flags)];
      memory := memory + writes;
    }

    /** The loop body: the awaiter runs behind the release, on what the cell holds. */
    method VisitOne(head: nat, turn: Turn)
      requires Valid() && ring.khead == head && ring.Count() > 0
      modifies this, ring, ring.cqes
      ensures Valid() && ring.khead == (head + 1) % WORD && ring.Count() >= old(ring.Count()) - 1
      ensures State() == Visited(old(State()), turn, ring.cqes.Length)
    {
      hide Slot, Distance, FromHead, RingSize, Ring.Slots, Ring.Count, Stored;
      ghost var before := State();
      var cqe, coroutine := Take(head);
      Deliver(turn.early);
      ring.LastSlot(head);
      var reread := ring.At(head).res;
      assert reread == Reread(before.pending, turn.early, ring.cqes.Length);
      hide Reread;
      var action := Skipped;
      if coroutine != NULL {
        if reread == TIMED_OUT {
          action := Destroyed;
          memory := memory + turn.writes;
        } else {
          action := Resumed;
          Resume(cqe.data, turn.writes);
        }
      }
      log := log + [Visit(cqe, coroutine, action, reread, |posted|)];
      Deliver(turn.late);
    }

    /** One pass, from the head to the tail as they are when it begins. */
    method Pass(turns: nat -> Turn)
      requires Valid()
      modifies this, ring, ring.cqes
      ensures Valid() && ring.khead == old(ring.ktail)
      ensures State() == Passed(old(State()), turns, 0, old(ring.Count()), ring.cqes.Length)
    {
      hide Slot, Distance, FromHead, Posting, Visited;
      var head, end, k := ring.khead, ring.ktail, 0;
      ghost var n, size := ring.Count(), ring.cqes.Length;
      ghost var whole := Passed(State(), turns, 0, n, size);
      TailIsAhead(head, end);
      while head != end
        invariant Valid() && ring.khead == head
        invariant k <= n && Distance(head, end) == n - k <= ring.Count()
        invariant Passed(State(), turns, k, n - k, size) == whole
        decreases n - k
      {
        TailIsAhead(head, end);
        VisitOne(head, turns(k));
        head := (head + 1) % WORD;
        k := k + 1;
      }
      TailIsAhead(head, end);
    }

    /** One turn of the endless loop. */
    method Once(arrived: seq<Cqe>, turns: nat -> Turn)
      requires Valid()
      modifies this, ring, ring.cqes
      ensures Valid() && State() == Round(old(State()), arrived, turns, ring.cqes.Length)
      ensures |log| >= |old(log)| + old(ring.Count())
    {
      RoundVisitsAll(State(), arrived, turns, ring.cqes.Length);
      Deliver(arrived);
      Pass(turns);
    }
  }
}
