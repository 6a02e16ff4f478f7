/**
 * Connection slots of the accelerator: a stack of free slot numbers, popped by the master thread
 * and pushed by the master and by finishing workers, with one capacity comparison outside the lock.
 */
module ConnectionSlots {
  import opened Bytes

  /** The stack in place; `connections[..top]` are the free slots. */
  class ConnectionManager {
    const connections: array<byte>
    var top: int

    ghost predicate Valid()
      reads this
    {
      0 <= top <= connections.Length
    }

    ghost function Free(): seq<byte>
      reads this, connections
      requires Valid()
    {
      connections[..top]
    }

    /** Every slot is free, in ascending order from the bottom. */
    constructor (count: nat)
      requires count <= 256
      ensures Valid() && fresh(connections) && connections.Length == count
      ensures Free() == AllSlots(count)
    {
      connections := new byte[count](i => if 0 <= i < 256 then i else 0);
      top := count;
    }

    method Take() returns (id: byte)
      requires Valid() && top > 0
      modifies this`top
      ensures Valid() && old(Free()) == Free() + [id]
    {
      top := top - 1;
      id := connections[top];
    }

    method Release(id: byte)
      requires Valid() && top < connections.Length
      modifies this`top, connections
      ensures Valid() && Free() == old(Free()) + [id]
    {
      connections[top] := id;
      top := top + 1;
    }
  }

  function AllSlots(count: nat): (s: seq<byte>)
    requires count <= 256
    ensures |s| == count
  {
    seq(count, i requires 0 <= i < count => i)
  }

  // ---------------------------------------------------------------- master and workers

  /** The master between events, after its unlocked comparison, and with a slot taken. */
  datatype Master = Ready | Checked | Holding(id: byte)

  /**
   * `pending` slots have an accepted request, `running` ones a worker thread, `stranded` ones were
   * never given back. `pointers` are the slots whose worker pointer is not NULL.
   */
  datatype Table = Table(free: seq<byte>, master: Master, pending: set<byte>, running: set<byte>,
                         stranded: set<byte>, pointers: set<byte>)

  datatype Event =
    | Reject
    | Check
    | Take
    | InitFails
    | RequestFails
    | RequestAccepted
    | EstablishFails(id: byte)
    | NoMemoryForWorker(id: byte)
    | Established(id: byte)
    | WorkerDone(id: byte)

  predicate Enabled(t: Table, e: Event) {
    match e
    case Reject => t.master == Ready && |t.free| <= 0
    case Check => t.master == Ready && |t.free| > 0
    case Take => t.master == Checked
    case InitFails => t.master.Holding?
    case RequestFails => t.master.Holding?
    case RequestAccepted => t.master.Holding?
    case EstablishFails(id) => t.master == Ready && id in t.pending
    case NoMemoryForWorker(id) => t.master == Ready && id in t.pending
    case Established(id) => t.master == Ready && id in t.pending
    case WorkerDone(id) => id in t.running
  }

  /** A pop of an empty stack has no result. */
  predicate Underflows(t: Table, e: Event) {
    e == Take && t.free == []
  }

  function Next(t: Table, e: Event): Table
    requires Enabled(t, e) && !Underflows(t, e)
  {
    match e
    case Reject => t
    case Check => t.(master := Checked)
    case Take => t.(master := Holding(t.free[|t.free| - 1]), free := t.free[..|t.free| - 1])
    case InitFails =>
      t.(master := Ready, free := t.free + [t.master.id], pointers := t.pointers + {t.master.id})
    case RequestFails =>
      t.(master := Ready, free := t.free + [t.master.id], pointers := t.pointers - {t.master.id})
    case RequestAccepted =>
      t.(master := Ready, pending := t.pending + {t.master.id}, pointers := t.pointers + {t.master.id})
    case EstablishFails(id) =>
      t.(pending := t.pending - {id}, free := t.free + [id], pointers := t.pointers - {id})
    case NoMemoryForWorker(id) => t.(pending := t.pending - {id}, stranded := t.stranded + {id})
    case Established(id) => t.(pending := t.pending - {id}, running := t.running + {id})
    case WorkerDone(id) =>
      t.(running := t.running - {id}, free := t.free + [id], pointers := t.pointers - {id})
  }

  function Held(t: Table): set<byte> {
    if t.master.Holding? then {t.master.id} else {}
  }

  function Numbers(count: nat): set<byte>
    requires count <= 256
  {
    set x | x in AllSlots(count)
  }

  /** All places together, each slot as often as it occurs. */
  function Places(t: Table): multiset<byte> {
    multiset(t.free) + multiset(Held(t)) + multiset(t.pending) + multiset(t.running) + multiset(t.stranded)
  }

  /** Every slot has exactly one place, and every slot in use has a worker pointer. */
  predicate Conserved(t: Table, count: nat) {
    && count <= 256
    && Places(t) == multiset(Numbers(count))
    && t.pending + t.running + t.stranded <= t.pointers
    && (t.master == Checked ==> t.free != [])
  }

  function Initial(count: nat): Table
    requires count <= 256
  {
    Table(AllSlots(count), Ready, {}, {}, {}, {})
  }

  lemma {:induction false} AllSlotsOnce(count: nat)
    requires count <= 256
    ensures multiset(AllSlots(count)) == multiset(Numbers(count)) && |Numbers(count)| == count
  {
    if count > 0 {
      AllSlotsOnce(count - 1);
      assert AllSlots(count) == AllSlots(count - 1) + [count - 1];
      assert Numbers(count) == Numbers(count - 1) + {count - 1};
    } else {
      assert Numbers(0) == {};
    }
  }

  lemma InitialConserved(count: nat)
    requires count <= 256
    ensures Conserved(Initial(count), count)
  {
    AllSlotsOnce(count);
  }

  lemma InRange(count: nat, id: byte)
    requires count <= 256
    ensures id in Numbers(count) <==> id < count
  {
    if id < count {
      assert AllSlots(count)[id] == id;
    }
  }

  /** A slot has one place: being in one excludes all others. */
  lemma OnePlace(t: Table, count: nat, id: byte)
    requires Conserved(t, count)
    ensures Places(t)[id] == (if id < count then 1 else 0)
    ensures multiset(t.free)[id] + multiset(Held(t))[id] + multiset(t.pending)[id]
          + multiset(t.running)[id] + multiset(t.stranded)[id] == Places(t)[id]
  {
    InRange(count, id);
  }

  lemma CountsTwice(s: seq<byte>, i: nat, k: nat)
    requires i < k < |s|
    ensures s[i] == s[k] ==> multiset(s)[s[i]] >= 2
  {
    assert s == s[..k] + s[k..];
    assert s[i] == s[..k][i] && s[k] == s[k..][0];
  }

  lemma Popped(free: seq<byte>)
    requires free != []
    ensures multiset(free) == multiset(free[..|free| - 1]) + multiset{free[|free| - 1]}
  {
    assert free == free[..|free| - 1] + [free[|free| - 1]];
  }

  lemma TakeKeeps(t: Table, count: nat)
    requires Conserved(t, count) && t.master == Checked
    ensures t.free != [] && Conserved(Next(t, Take), count)
  {
    Popped(t.free);
  }

  /** The master gives a held slot back, or keeps it for a pending connection. */
  lemma MasterKeeps(t: Table, e: Event, count: nat)
    requires Conserved(t, count) && Enabled(t, e)
    requires e == InitFails || e == RequestFails || e == RequestAccepted
    ensures Conserved(Next(t, e), count)
  {
    var id := t.master.id;
    OnePlace(t, count, id);
    assert multiset(t.free + [id]) == multiset(t.free) + multiset{id};
    if e == RequestAccepted {
      assert multiset(t.pending + {id}) == multiset(t.pending) + multiset{id};
    }
  }

  /** A pending slot has no other place, and pushing it adds it once. */
  lemma MovePending(t: Table, id: byte, count: nat)
    requires Conserved(t, count) && id in t.pending
    ensures multiset(t.pending) == multiset(t.pending - {id}) + multiset{id}
    ensures id !in t.running && id !in t.stranded
    ensures multiset(t.free + [id]) == multiset(t.free) + multiset{id}
    ensures multiset(t.running + {id}) == multiset(t.running) + multiset{id}
    ensures multiset(t.stranded + {id}) == multiset(t.stranded) + multiset{id}
  {
    OnePlace(t, count, id);
  }

  lemma GiveUpKeeps(t: Table, id: byte, count: nat)
    requires Conserved(t, count) && id in t.pending && t.master == Ready
    ensures Conserved(Next(t, EstablishFails(id)), count)
  {
    hide Numbers;
    MovePending(t, id, count);
  }

  lemma StrandKeeps(t: Table, id: byte, count: nat)
    requires Conserved(t, count) && id in t.pending && t.master == Ready
    ensures Conserved(Next(t, NoMemoryForWorker(id)), count)
  {
    hide Numbers;
    MovePending(t, id, count);
  }

  lemma EstablishedKeeps(t: Table, id: byte, count: nat)
    requires Conserved(t, count) && id in t.pending && t.master == Ready
    ensures Conserved(Next(t, Established(id)), count)
  {
    hide Numbers;
    MovePending(t, id, count);
  }

  lemma MoveRunning(t: Table, id: byte, count: nat)
    requires Conserved(t, count) && id in t.running
    ensures multiset(t.running) == multiset(t.running - {id}) + multiset{id}
    ensures id !in t.pending && id !in t.stranded
    ensures multiset(t.free + [id]) == multiset(t.free) + multiset{id}
  {
    OnePlace(t, count, id);
  }

  /** A worker that ends gives its slot back. */
  lemma WorkerKeeps(t: Table, id: byte, count: nat)
    requires Conserved(t, count) && id in t.running
    ensures Conserved(Next(t, WorkerDone(id)), count)
  {
    hide Numbers;
    MoveRunning(t, id, count);
  }

  lemma NextKeeps(t: Table, e: Event, count: nat)
    requires Conserved(t, count) && Enabled(t, e)
    ensures !Underflows(t, e) && Conserved(Next(t, e), count)
  {
    hide Places, Next;
    match e {
      case Reject => CheckKeeps(t, e, count);
      case Check => CheckKeeps(t, e, count);
      case Take => TakeKeeps(t, count);
      case InitFails => MasterKeeps(t, e, count);
      case RequestFails => MasterKeeps(t, e, count);
      case RequestAccepted => MasterKeeps(t, e, count);
      case EstablishFails(id) => GiveUpKeeps(t, id, count);
      case NoMemoryForWorker(id) => StrandKeeps(t, id, count);
      case Established(id) => EstablishedKeeps(t, id, count);
      case WorkerDone(id) => WorkerKeeps(t, id, count);
    }
  }

  lemma CheckKeeps(t: Table, e: Event, count: nat)
    requires Conserved(t, count) && Enabled(t, e) && (e == Reject || e == Check)
    ensures Conserved(Next(t, e), count)
  {
  }

  predicate Legal(t: Table, events: seq<Event>)
    decreases |events|
  {
    events == [] || (
      Enabled(t, events[0]) && (Underflows(t, events[0]) || Legal(Next(t, events[0]), events[1..])))
  }

  /** The table after the events, or nothing once a pop has underflowed. */
  predicate Reaches(t: Table, events: seq<Event>, e: Table)
    requires Legal(t, events)
    decreases |events|
  {
    if events == [] then e == t
    else !Underflows(t, events[0]) && Reaches(Next(t, events[0]), events[1..], e)
  }

  lemma {:induction false} Along(t: Table, events: seq<Event>, count: nat) returns (e: Table)
    requires Conserved(t, count) && Legal(t, events)
    ensures Reaches(t, events, e) && Conserved(e, count)
    decreases |events|
  {
    hide Conserved, Enabled, Next;
    if events == [] {
      e := t;
    } else {
      NextKeeps(t, events[0], count);
      e := Along(Next(t, events[0]), events[1..], count);
    }
  }

  /** What one place per slot means for the stack and the total. */
  lemma ConservedMeans(t: Table, count: nat)
    requires Conserved(t, count)
    ensures forall i, k :: 0 <= i < k < |t.free| ==> t.free[i] != t.free[k]
    ensures forall i :: 0 <= i < |t.free| ==> t.free[i] < count
    ensures forall i :: 0 <= i < |t.free| ==> t.free[i] !in Held(t) + t.pending + t.running + t.stranded
    ensures |t.free| + |Held(t)| + |t.pending| + |t.running| + |t.stranded| == count
  {
    AllSlotsOnce(count);
    assert |Places(t)| == |t.free| + |Held(t)| + |t.pending| + |t.running| + |t.stranded|;
    forall i, k | 0 <= i < k < |t.free|
      ensures t.free[i] != t.free[k]
    {
      CountsTwice(t.free, i, k);
      OnePlace(t, count, t.free[i]);
    }
    forall i | 0 <= i < |t.free|
      ensures t.free[i] < count && t.free[i] !in Held(t) + t.pending + t.running + t.stranded
    {
      OnePlace(t, count, t.free[i]);
      assert t.free[i] in multiset(t.free);
    }
  }

  /**
   * In every interleaving of the master with any number of workers no pop underflows although
   * `top` is compared outside the lock; free slots are distinct, in range and not in use; and free,
   * held, pending, running and stranded slots always add up to all of them.
   */
  lemma SlotsConserved(count: nat, events: seq<Event>) returns (e: Table)
    requires count <= 256 && Legal(Initial(count), events)
    ensures Reaches(Initial(count), events, e)
    ensures forall i, k :: 0 <= i < k < |e.free| ==> e.free[i] != e.free[k]
    ensures forall i :: 0 <= i < |e.free| ==> e.free[i] < count
    ensures forall i :: 0 <= i < |e.free| ==> e.free[i] !in Held(e) + e.pending + e.running + e.stranded
    ensures |e.free| + |Held(e)| + |e.pending| + |e.running| + |e.stranded| == count
    ensures e.pending + e.running + e.stranded <= e.pointers
  {
    InitialConserved(count);
    e := Along(Initial(count), events, count);
    ConservedMeans(e, count);
  }

  /** A connection is turned away exactly if the slots in use or lost are all there are, else it is checked in. */
  lemma RejectedIffFull(count: nat, events: seq<Event>, e: Table)
    requires count <= 256 && Legal(Initial(count), events) && Reaches(Initial(count), events, e) && e.master == Ready
    ensures Enabled(e, Reject) <==> |e.pending| + |e.running| + |e.stranded| == count
    ensures Enabled(e, Check) <==> |e.pending| + |e.running| + |e.stranded| < count
  {
    InitialConserved(count);
    var end := Along(Initial(count), events, count);
    SameEnd(Initial(count), events, end, e);
    ConservedMeans(e, count);
    hide Conserved;
  }

  lemma {:induction false} SameEnd(t: Table, events: seq<Event>, a: Table, b: Table)
    requires Legal(t, events) && Reaches(t, events, a) && Reaches(t, events, b)
    ensures a == b
    decreases |events|
  {
    hide Enabled, Next;
    if events != [] {
      SameEnd(Next(t, events[0]), events[1..], a, b);
    }
  }

  // ---------------------------------------------------------------- pointers of free slots

  /** The slots whose last release was a failed initialisation, given those before the event. */
  function Stale(t: Table, e: Event, stale: set<byte>): set<byte>
    requires Enabled(t, e)
  {
    match e
    case InitFails => stale + {t.master.id}
    case RequestFails => stale - {t.master.id}
    case EstablishFails(id) => stale - {id}
    case WorkerDone(id) => stale - {id}
    case _ => stale
  }

  function StaleAfter(t: Table, events: seq<Event>, stale: set<byte>): set<byte>
    requires Legal(t, events)
    decreases |events|
  {
    if events == [] || Underflows(t, events[0]) then stale
    else StaleAfter(Next(t, events[0]), events[1..], Stale(t, events[0], stale))
  }

  predicate PointersOf(t: Table, stale: set<byte>) {
    forall i :: 0 <= i < |t.free| ==> (t.free[i] in t.pointers <==> t.free[i] in stale)
  }

  /** A slot in use is not on the stack, so pointers set for it do not show there. */
  lemma NotFree(t: Table, count: nat, id: byte)
    requires Conserved(t, count) && id in Held(t) + t.pending + t.running
    ensures id !in t.free
  {
    OnePlace(t, count, id);
    assert id in t.free ==> multiset(t.free)[id] >= 1;
  }

  lemma PointersKept(t: Table, e: Event, count: nat, stale: set<byte>)
    requires Conserved(t, count) && Enabled(t, e) && !Underflows(t, e) && PointersOf(t, stale)
    ensures PointersOf(Next(t, e), Stale(t, e, stale))
  {
    if t.master.Holding? {
      NotFree(t, count, t.master.id);
    }
    if e.EstablishFails? || e.WorkerDone? {
      NotFree(t, count, e.id);
    }
    hide Conserved;
  }

  lemma {:induction false} PointersAlong(t: Table, events: seq<Event>, count: nat, stale: set<byte>, e: Table)
    requires Conserved(t, count) && Legal(t, events) && PointersOf(t, stale) && Reaches(t, events, e)
    ensures PointersOf(e, StaleAfter(t, events, stale))
    decreases |events|
  {
    hide Conserved, Enabled, Next, PointersOf, Stale;
    if events != [] {
      NextKeeps(t, events[0], count);
      PointersKept(t, events[0], count, stale);
      PointersAlong(Next(t, events[0]), events[1..], count, Stale(t, events[0], stale), e);
    }
  }

  /** In every interleaving a free slot has a worker pointer exactly if its last release was a failed initialisation. */
  lemma {:induction false} FreePointersIff(count: nat, events: seq<Event>, e: Table, i: nat)
    requires count <= 256 && Legal(Initial(count), events) && Reaches(Initial(count), events, e) && i < |e.free|
    ensures e.free[i] in e.pointers <==> e.free[i] in StaleAfter(Initial(count), events, {})
  {
    InitialConserved(count);
    PointersAlong(Initial(count), events, count, {}, e);
  }

  /** A failed initialisation leaves a worker pointer on a free slot: pointers do not show ownership. */
  lemma PointerOnFreeSlot()
    ensures var e := Next(Next(Next(Initial(1), Check), Take), InitFails);
      e.free == [0] && 0 in e.pointers
  {
    assert AllSlots(1) == [0];
  }
}
