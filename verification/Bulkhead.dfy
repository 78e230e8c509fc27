/**
  The bulkhead: an atomic counter, the compare-exchange loop that reserves a slot, and the permit that
  gives its slot back once.
 */
module Bulkhead {
  import opened Wrappers

  const USIZE_MAX: nat := U64_MAX

  /** `fetch_sub(1)`, which wraps at zero. */
  function FetchSubOne(n: nat): (r: nat)
    ensures n <= USIZE_MAX ==> r <= USIZE_MAX && (r + 1) % (USIZE_MAX + 1) == n
  {
    if n == 0 then USIZE_MAX else n - 1
  }

  /**
    What a thread meets at one of its compare-exchanges: the value other threads have left in the
    counter, and whether the exchange fails although it matches.
   */
  datatype Turn = Turn(counter: nat, spurious: bool)

  /** Whether a reservation succeeds, and the counter after its last access. */
  function Reserve(capacity: nat, current: nat, value: nat, world: seq<Turn>): (bool, nat)
    decreases |world|, if current == value then 0 else 1
  {
    if current >= capacity then (false, value)
    else if world == [] then
      if value == current then (true, current + 1) else Reserve(capacity, value, value, [])
    else if world[0].counter == current && !world[0].spurious then (true, current + 1)
    else Reserve(capacity, world[0].counter, world[0].counter, world[1..])
  }

  /**
    Whatever the other threads do, the outcome is that of an atomic "take a slot if one is free" on a
    value the counter held at one of this thread's own accesses.
   */
  lemma {:induction false} ReserveIsAtomic(capacity: nat, value: nat, world: seq<Turn>)
    ensures var (ok, after) := Reserve(capacity, value, value, world);
            var seen := if ok then after - 1 else after;
            && (seen == value || exists turn <- world :: turn.counter == seen)
            && (ok <==> seen < capacity)
    decreases |world|
  {
    if value < capacity && world != [] && (world[0].counter != value || world[0].spurious) {
      ReserveIsAtomic(capacity, world[0].counter, world[1..]);
    }
  }

  /** What the counter holds, as far as a reservation is told, once `n` turns have been met. */
  function Seen(start: nat, world: seq<Turn>, n: nat): nat
    requires n <= |world|
  {
    if n == 0 then start else world[n - 1].counter
  }

  /** At turn `i` the loop tried to exchange the value it held, and failed. */
  ghost predicate FailedAt(capacity: nat, start: nat, world: seq<Turn>, i: nat)
    requires i < |world|
  {
    Seen(start, world, i) < capacity && (world[i].spurious || world[i].counter != Seen(start, world, i))
  }

  /** At turn `i` the counter still had the value the loop held, which left a slot free, and the exchange took it. */
  ghost predicate TookAt(capacity: nat, start: nat, world: seq<Turn>, i: nat)
    requires i < |world|
  {
    Seen(start, world, i) < capacity && !world[i].spurious && world[i].counter == Seen(start, world, i)
  }

  /**
    The outcome of a reservation whose first `failures` exchanges failed, each because it was spurious or
    because another thread had changed the counter. Then it gave up on a full counter, or took a slot at the
    next turn, or took one undisturbed because no turn was left. The counter is what the others left in it,
    plus the slot taken.
   */
  ghost predicate Met(capacity: nat, start: nat, world: seq<Turn>, failures: nat, ok: bool, after: nat) {
    && failures <= |world|
    && (forall i: nat :: i < failures ==> FailedAt(capacity, start, world, i))
    && var seen := Seen(start, world, failures);
       if seen >= capacity then !ok && after == seen
       else ok && after == seen + 1 && (failures < |world| ==> TookAt(capacity, start, world, failures))
  }

  ghost predicate AccountedFor(capacity: nat, start: nat, world: seq<Turn>, ok: bool, after: nat) {
    exists failures :: Met(capacity, start, world, failures, ok, after)
  }

  lemma MetOneMore(capacity: nat, start: nat, world: seq<Turn>, failures: nat, ok: bool, after: nat)
    requires world != [] && FailedAt(capacity, start, world, 0)
    requires Met(capacity, world[0].counter, world[1..], failures, ok, after)
    ensures Met(capacity, start, world, failures + 1, ok, after)
  {
    var rest := world[1..];
    forall i: nat | 0 < i <= failures ensures FailedAt(capacity, start, world, i) {
      assert FailedAt(capacity, world[0].counter, rest, i - 1);
    }
  }

  /** Every outcome of a reservation is the one that its world accounts for. */
  lemma {:induction false} ReserveMeaning(capacity: nat, start: nat, world: seq<Turn>)
    ensures var (ok, after) := Reserve(capacity, start, start, world);
            AccountedFor(capacity, start, world, ok, after)
    decreases |world|
  {
    var r := Reserve(capacity, start, start, world);
    if start >= capacity || world == [] || (world[0].counter == start && !world[0].spurious) {
      assert Met(capacity, start, world, 0, r.0, r.1);
    } else {
      ReserveMeaning(capacity, world[0].counter, world[1..]);
      var failures :| Met(capacity, world[0].counter, world[1..], failures, r.0, r.1);
      MetOneMore(capacity, start, world, failures, r.0, r.1);
    }
  }

  /** And there is only one. */
  lemma MetIsUnique(capacity: nat, start: nat, world: seq<Turn>,
                    failures: nat, ok: bool, after: nat, failures': nat, ok': bool, after': nat)
    requires Met(capacity, start, world, failures, ok, after) && Met(capacity, start, world, failures', ok', after')
    ensures failures == failures' && ok == ok' && after == after'
  {
    assert failures < failures' ==> FailedAt(capacity, start, world, failures);
    assert failures' < failures ==> FailedAt(capacity, start, world, failures');
  }

  class Counter {
    var value: nat

    constructor ()
      ensures value == 0
    {
      value := 0;
    }

    method CompareExchangeWeak(current: nat, next: nat, spurious: bool) returns (r: Result<nat, nat>)
      modifies this
      ensures r.Ok? <==> old(value) == current && !spurious
      ensures r == (if r.Ok? then Ok(old(value)) else Err(old(value)))
      ensures value == if r.Ok? then next else old(value)
    {
      if value == current && !spurious {
        r := Ok(value);
        value := next;
      } else {
        r := Err(value);
      }
    }

    method FetchSub()
      modifies this
      ensures value == FetchSubOne(old(value))
    {
      if value == 0 {
        value := USIZE_MAX;
      } else {
        value := value - 1;
      }
    }
  }

  /**
    The reservation loop. Before each exchange the other threads act as `world` says; once `world` is
    used up the counter is left alone.
   */
  method TryReserve(inFlight: Counter, capacity: nat, world: seq<Turn>) returns (ok: bool)
    modifies inFlight
    ensures (ok, inFlight.value) == Reserve(capacity, old(inFlight.value), old(inFlight.value), world)
    ensures AccountedFor(capacity, old(inFlight.value), world, ok, inFlight.value)
  {
    ReserveMeaning(capacity, inFlight.value, world);
    var current: nat := inFlight.value;
    var turn := 0;
    while true
      invariant turn <= |world|
      invariant Reserve(capacity, current, inFlight.value, world[turn..])
             == Reserve(capacity, old(inFlight.value), old(inFlight.value), world)
      decreases |world| - turn, if current == inFlight.value then 0 else 1
    {
      if current >= capacity {
        return false;
      }
      var spurious := false;
      if turn < |world| {
        inFlight.value, spurious := world[turn].counter, world[turn].spurious;
        turn := turn + 1;
      }
      var exchanged := inFlight.CompareExchangeWeak(current, current + 1, spurious);
      match exchanged {
        case Ok(_) => return true;
        case Err(observed) => current := observed;
      }
    }
  }

  class Bulkhead {
    const capacity: nat
    const inFlight: Counter

    constructor (capacity: nat)
      ensures this.capacity == capacity && fresh(inFlight) && inFlight.value == 0
    {
      this.capacity := capacity;
      inFlight := new Counter();
    }

    method TryAcquire(world: seq<Turn>) returns (r: Option<BulkheadPermit>)
      modifies inFlight
      ensures (r.Some?, inFlight.value)
           == Reserve(capacity, old(inFlight.value), old(inFlight.value), world)
      ensures AccountedFor(capacity, old(inFlight.value), world, r.Some?, inFlight.value)
      ensures r.Some? ==> fresh(r.value) && r.value.bulkhead == this && !r.value.released
    {
      var ok := TryReserve(inFlight, capacity, world);
      if !ok {
        return None;
      }
      var permit := new BulkheadPermit(this);
      r := Some(permit);
    }

    method Available() returns (n: nat)
      ensures inFlight.value + n == if inFlight.value <= capacity then capacity else inFlight.value
    {
      n := if inFlight.value <= capacity then capacity - inFlight.value else 0;
    }
  }

  class BulkheadPermit {
    const bulkhead: Bulkhead
    var released: bool

    constructor (bulkhead: Bulkhead)
      ensures this.bulkhead == bulkhead && !released
    {
      this.bulkhead := bulkhead;
      released := false;
    }

    method ReleaseInner()
      modifies this, bulkhead.inFlight
      ensures released
      ensures bulkhead.inFlight.value
           == if old(released) then old(bulkhead.inFlight.value) else FetchSubOne(old(bulkhead.inFlight.value))
    {
      if !released {
        bulkhead.inFlight.FetchSub();
        released := true;
      }
    }

    /** Explicit release consumes the permit, so its drop follows at once. */
    method Release()
      modifies this, bulkhead.inFlight
      ensures released
      ensures bulkhead.inFlight.value
           == if old(released) then old(bulkhead.inFlight.value) else FetchSubOne(old(bulkhead.inFlight.value))
    {
      ReleaseInner();
      Drop();
    }

    method Drop()
      modifies this, bulkhead.inFlight
      ensures released
      ensures bulkhead.inFlight.value
           == if old(released) then old(bulkhead.inFlight.value) else FetchSubOne(old(bulkhead.inFlight.value))
    {
      ReleaseInner();
    }
  }
}
