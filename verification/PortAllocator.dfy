/** The port allocator: random probing with a cool-down per slot (src/switch_core_port_allocator.c). */
module PortAllocator {
  import opened Common

  const PORTS: nat := 65536
  const WORDS: nat := 0x1_0000_0000

  /** The C division by two, which rounds toward zero. */
  function Half(n: int): int {
    if n >= 0 then n / 2 else -(-n / 2)
  }

  // ----- Ranges and the mapping of slots to ports

  /** The range after switch_core_port_allocator_new has rounded it for the flags. */
  function RoundStart(start: nat, even: bool, odd: bool): (s: nat)
    ensures start < PORTS ==> s < PORTS
  {
    if (even && !odd && start % 2 != 0) || (odd && !even && start % 2 == 0) then (start + 1) % PORTS else start
  }

  function RoundEnd(end: nat, even: bool, odd: bool): (e: nat)
    ensures end < PORTS ==> e < PORTS
  {
    if (even && !odd && end % 2 != 0) || (odd && !even && end % 2 == 0) then (end - 1) % PORTS else end
  }

  /** The number of slots, a 32-bit number: it wraps around when the range ends before it starts. */
  function TrackLen(start: nat, end: nat, even: bool, odd: bool): (n: nat)
    requires start < PORTS && end < PORTS
    ensures start <= end + 2 ==> n == if even && odd then end - start + 2 else (end - start + 2) / 2
  {
    var n := (end - start + 2) % WORDS;
    if even && odd then n else n / 2
  }

  function Port(start: nat, even: bool, odd: bool, index: nat): nat {
    if even && odd then (index + start) % PORTS else (index + start / 2) % PORTS * 2 % PORTS
  }

  function Slot(start: nat, even: bool, odd: bool, port: nat): int {
    if even && odd then port - start else Half(port - start)
  }

  method Rounded(start: nat, end: nat, even: bool, odd: bool) returns (s: int, e: int)
    requires start < PORTS && end < PORTS
    ensures s == RoundStart(start, even, odd) && e == RoundEnd(end, even, odd)
    ensures even && !odd ==> s % 2 == 0 && e < PORTS
  {
    s, e := start, end;
    if !(even && odd) {
      if even {
        if s % 2 != 0 {
          s := (s + 1) % PORTS;
        }
        if e % 2 != 0 {
          e := (e - 1) % PORTS;
        }
      } else if odd {
        if s % 2 == 0 {
          s := (s + 1) % PORTS;
        }
        if e % 2 == 0 {
          e := (e - 1) % PORTS;
        }
      }
    }
  }

  /** Every slot's port is in the range, and no two slots have the same port. */
  ghost predicate SoundPorts(start: nat, end: nat, even: bool, odd: bool)
    requires start < PORTS && end < PORTS
  {
    var n := TrackLen(start, end, even, odd);
    && (forall i: nat :: i < n ==> start <= Port(start, even, odd, i) <= end)
    && (forall i: nat, j: nat :: i < j < n ==> Port(start, even, odd, i) != Port(start, even, odd, j))
  }

  /** From an even start, slots stand for the even ports of the range, and freeing finds the slot again. */
  lemma EvenPorts(start: nat, end: nat, even: bool, odd: bool, i: nat)
    requires !(even && odd) && start % 2 == 0 && start < PORTS && end < PORTS && start <= end + 2
    requires i < TrackLen(start, end, even, odd)
    ensures var p := Port(start, even, odd, i);
            p == start + 2 * i && p % 2 == 0 && start <= p <= end && Slot(start, even, odd, p) == i
  {
    assert i + start / 2 < PORTS / 2;
  }

  lemma BothFlags(start: nat, end: nat)
    requires start <= end < PORTS
    ensures !SoundPorts(start, end, true, true)
  {
    var first: nat, last: nat := 0, end - start + 1;
    assert Port(start, true, true, last) == (end + 1) % PORTS;
    assert Port(start, true, true, first) == start;
  }

  lemma OddStart(start: nat, end: nat, even: bool, odd: bool)
    requires !(even && odd) && start <= end < PORTS && start % 2 != 0
    ensures !SoundPorts(start, end, even, odd)
  {
    var first: nat := 0;
    assert Port(start, even, odd, first) == start - 1;
  }

  lemma EvenStart(start: nat, end: nat, even: bool, odd: bool)
    requires !(even && odd) && start <= end < PORTS && start % 2 == 0
    ensures SoundPorts(start, end, even, odd)
  {
    forall i: nat | i < TrackLen(start, end, even, odd)
      ensures Port(start, even, odd, i) == start + 2 * i <= end
    {
      EvenPorts(start, end, even, odd, i);
    }
  }

  /** The mapping of slots to ports is sound exactly when the range does not have both parities, starts
      even and is not empty. So it is in even-only mode. In odd-only mode the first port is one before the
      range, and with both flags the last is one past it. A range that ends before it starts has, after
      the wrap-around of its length, slots but no ports. */
  lemma SoundPortsIff(start: nat, end: nat, even: bool, odd: bool)
    requires start < PORTS && end < PORTS && TrackLen(start, end, even, odd) > 0
    ensures SoundPorts(start, end, even, odd) <==> !(even && odd) && start % 2 == 0 && start <= end
  {
    if start > end {
      var first: nat := 0;
      assert !(start <= Port(start, even, odd, first) <= end);
    } else if even && odd {
      BothFlags(start, end);
    } else if start % 2 != 0 {
      OddStart(start, end, even, odd);
    } else {
      EvenStart(start, end, even, odd);
    }
  }

  /** The rounded range: with one parity it starts at the first port of that parity from the start asked for
      and ends at the last one up to the end asked for; otherwise it is as asked for. */
  lemma RoundedRange(start: nat, end: nat, even: bool, odd: bool)
    requires start < PORTS - 1 && 0 < end < PORTS
    ensures var s, e := RoundStart(start, even, odd), RoundEnd(end, even, odd);
            && start <= s <= start + 1 && end - 1 <= e <= end
            && (even && !odd ==> s % 2 == 0 && e % 2 == 0)
            && (odd && !even ==> s % 2 == 1 && e % 2 == 1)
            && (even == odd ==> s == start && e == end)
            && (even != odd && start % 2 == (if even then 0 else 1) ==> s == start)
            && (even != odd && end % 2 == (if even then 0 else 1) ==> e == end)
  {
  }

  /** Every even port of a range that starts even has a slot. */
  lemma EveryPortHasSlot(start: nat, end: nat, even: bool, odd: bool, port: nat)
    requires !(even && odd) && start % 2 == 0 && start <= port <= end < PORTS && port % 2 == 0
    ensures var i := Slot(start, even, odd, port);
            0 <= i < TrackLen(start, end, even, odd) && Port(start, even, odd, i) == port
  {
    var i := Slot(start, even, odd, port);
    assert port == start + 2 * i;
    EvenPorts(start, end, even, odd, i);
  }

  /** The division rounds toward zero, so the port just before the range stands for the first slot. */
  lemma BelowStart(start: nat, even: bool, odd: bool)
    requires start > 0 && !(even && odd)
    ensures Slot(start, even, odd, start - 1) == 0
  {
  }

  /** With both flags the slots stand for the ports from the start on, and freeing finds the slot. */
  lemma BothPorts(start: nat, i: nat)
    requires start + i < PORTS
    ensures Port(start, true, true, i) == start + i && Slot(start, true, true, start + i) == i
  {
  }

  // ----- One pass over the track

  /** How many steps a walk from slot s takes to come to slot i. */
  function Offset(s: nat, n: nat, i: nat): nat
    requires s < n && i < n
  {
    if i >= s then i - s else i - s + n
  }

  /** The walk goes up from its start, around the end, and meets its start last. */
  lemma OffsetWalks(s: nat, n: nat, i: nat)
    requires s < n && i < n
    ensures Offset(s, n, s) == 0 && Offset(s, n, i) < n
    ensures var next := if i + 1 == n then 0 else i + 1;
            next != s ==> Offset(s, n, next) == Offset(s, n, i) + 1
  {
  }

  /** Every slot can be picked. */
  lemma PickReaches(n: nat, i: nat)
    requires i < n
    ensures Pick(i, n) == i
  {
  }

  function Pick(random: nat, n: nat): (i: nat)
    requires n > 0
    ensures i < n
  {
    random % n
  }

  const COOL_DOWN: int := -4

  function Raise(v: int): int {
    if v < 0 then v + 1 else v
  }

  class Allocator {
    const start: nat
    const end: nat
    const even: bool
    const odd: bool
    const trackLen: nat
    const track: array<int>
    var trackUsed: nat

    /** The slots held; those freed and not granted again; and how often each slot of the latter was
        stepped over since it was freed. */
    ghost var held: set<nat>
    ghost var cooling: set<nat>
    ghost var stepped: seq<nat>

    ghost predicate Valid()
      reads this, track
    {
      && track.Length == trackLen + 2 && |stepped| == trackLen
      && held <= Below(trackLen) && cooling <= Below(trackLen) && held !! cooling
      && trackUsed == |held|
      && (forall i :: 0 <= i < trackLen ==> SlotState(i, track[i]))
      && (forall i :: trackLen <= i < trackLen + 2 ==> track[i] == 0)
    }

    ghost predicate SlotState(i: nat, v: int)
      requires i < |stepped|
      reads this
    {
      if i in held then v == 1
      else if i in cooling then v == COOL_DOWN + stepped[i] && stepped[i] <= 4
      else v == 0
    }

    constructor (start0: nat, end0: nat, even: bool, odd: bool)
      requires start0 < PORTS && end0 < PORTS
      requires TrackLen(RoundStart(start0, even, odd), RoundEnd(end0, even, odd), even, odd) + 2 < WORDS
      ensures Valid() && held == {} && fresh(track)
      ensures this.even == even && this.odd == odd
      ensures start == RoundStart(start0, even, odd) && end == RoundEnd(end0, even, odd)
      ensures start < PORTS && end < PORTS && trackLen == TrackLen(start, end, even, odd)
      ensures even && !odd && start <= end + 2 ==> Sound()
    {
      var s, e := Rounded(start0, end0, even, odd);
      var len := (e - s + 2) % WORDS;
      if !(even && odd) {
        len := len / 2;
      }
      start, end, trackLen := s, e, len;
      this.even, this.odd := even, odd;
      track := new int[len + 2](_ => 0);
      trackUsed := 0;
      held, cooling, stepped := {}, {}, seq(len, _ => 0);
    }

    /** The range in even-only mode, and with no flag from an even start. */
    predicate Sound() {
      && !(even && odd) && start % 2 == 0 && start < PORTS && end < PORTS && start <= end + 2
      && trackLen == TrackLen(start, end, even, odd)
    }

    /** The ports of some slots: of those held, the ports granted and not freed. */
    ghost function Ports(slots: set<nat>): set<nat> {
      set i | i in slots :: Port(start, even, odd, i)
    }

    /** A slot not held has an even port of the range that is not held, and freeing that port finds
        the slot. */
    lemma OwnPort(slots: set<nat>, index: nat)
      requires Sound() && slots <= Below(trackLen) && index < trackLen && index !in slots
      ensures var p := Port(start, even, odd, index);
              && p % 2 == 0 && start <= p <= end && p !in Ports(slots)
              && Ports(slots + {index}) == Ports(slots) + {p} && Slot(start, even, odd, p) == index
    {
      EvenPorts(start, end, even, odd, index);
      forall i | i in slots
        ensures Port(start, even, odd, i) != Port(start, even, odd, index)
      {
        EvenPorts(start, end, even, odd, i);
      }
      PortsOfOneMore(slots, index);
    }

    lemma PortsOfOneMore(slots: set<nat>, index: nat)
      ensures Ports(slots + {index}) == Ports(slots) + {Port(start, even, odd, index)}
    {
      assert index in slots + {index};
    }

    method StepOver(index: nat)
      requires Valid() && index < trackLen && track[index] != 0
      modifies this`stepped, track
      ensures Valid()
      ensures forall i :: 0 <= i < trackLen ==> track[i] == if i == index then Raise(old(track[i])) else old(track[i])
    {
      if track[index] < 0 {
        track[index] := track[index] + 1;
        stepped := stepped[index := stepped[index] + 1];
      }
    }

    /** The walk from slot s: up to the first free slot, at most once around. Every slot that is
        cooling down and is stepped over comes one step closer to being free. */
    method Probe(s: nat) returns (tries: nat, index: nat)
      requires Valid() && s < trackLen
      modifies this`stepped, track
      ensures Valid() && index < trackLen && tries <= trackLen
      ensures tries < trackLen ==> track[index] == 0 && Offset(s, trackLen, index) == tries
      ensures forall i :: 0 <= i < trackLen ==>
                track[i] == if Offset(s, trackLen, i) < tries then Raise(old(track[i])) else old(track[i])
      ensures forall i :: 0 <= i < trackLen && Offset(s, trackLen, i) < tries ==> old(track[i]) != 0
    {
      tries, index := 0, s;
      while track[index] != 0 && tries < trackLen
        invariant Valid() && tries <= trackLen && index < trackLen
        invariant tries < trackLen ==> Offset(s, trackLen, index) == tries
        invariant forall i :: 0 <= i < trackLen ==>
                    track[i] == if Offset(s, trackLen, i) < tries then Raise(old(track[i])) else old(track[i])
        invariant forall i :: 0 <= i < trackLen && Offset(s, trackLen, i) < tries ==> old(track[i]) != 0
        decreases trackLen - tries
      {
        tries := tries + 1;
        StepOver(index);
        index := index + 1;
        if index >= trackLen {
          index := 0;
        }
      }
    }

    method PortOf(index: nat) returns (port: nat)
      ensures port == Port(start, even, odd, index)
    {
      if even && odd {
        port := (index + start) % PORTS;
      } else {
        port := (index + start / 2) % PORTS;
        port := port * 2 % PORTS;
      }
    }

    /** A free slot becomes held; if it was freed before, it has been stepped over four times since. */
    method Grant(index: nat) returns (port: nat)
      requires Valid() && index < trackLen && track[index] == 0
      modifies this, track
      ensures Valid() && index !in old(held) && port == Port(start, even, odd, index)
      ensures held == old(held) + {index} && cooling == old(cooling) - {index} && stepped == old(stepped)
      ensures index in old(cooling) ==> stepped[index] == 4
      ensures trackUsed == old(trackUsed) + 1
    {
      track[index] := 1;
      trackUsed := trackUsed + 1;
      held, cooling := held + {index}, cooling - {index};
      port := PortOf(index);
    }

    /** The same, and what it means for the ports. */
    method GrantPort(index: nat) returns (port: nat)
      requires Valid() && index < trackLen && track[index] == 0
      modifies this, track
      ensures Valid() && index !in old(held) && port == Port(start, even, odd, index)
      ensures held == old(held) + {index} && cooling == old(cooling) - {index} && stepped == old(stepped)
      ensures index in old(cooling) ==> stepped[index] == 4
      ensures trackUsed == old(trackUsed) + 1
      ensures Sound() ==> port % 2 == 0 && start <= port <= end
      ensures Sound() ==> port !in Ports(old(held)) && Ports(held) == Ports(old(held)) + {port}
    {
      port := Grant(index);
      if Sound() {
        OwnPort(old(held), index);
      }
    }

    /** One pass that finds no free slot brings every slot that is not held one step closer to being free.
        So the fifth at the latest finds one. */
    method Pass(s: nat, ghost low: int) returns (found: bool, index: nat)
      requires Valid() && s < trackLen && trackUsed < trackLen
      requires low <= 0 && forall i :: 0 <= i < trackLen && i !in held ==> track[i] >= low
      modifies this`stepped, track
      ensures Valid() && index < trackLen && (found ==> track[index] == 0)
      ensures !found ==> low < 0 && forall i :: 0 <= i < trackLen && i !in held ==> track[i] >= low + 1
    {
      FullIff();
      ghost var idle: nat :| idle < trackLen && idle !in held;
      var tries;
      tries, index := Probe(s);
      found := tries < trackLen;
      assert !found ==> track[idle] >= low + 1;
    }

    /** request_port: for any random numbers it ends within five passes, and it fails exactly when
        every slot is held. */
    method Request(rand: nat -> nat) returns (ok: bool, port: nat, index: nat, passes: nat)
      requires Valid()
      modifies this, track
      ensures Valid() && passes <= 5
      ensures ok <==> old(held) != Below(trackLen)
      ensures ok ==> index < trackLen && index !in old(held) && port == Port(start, even, odd, index)
      ensures ok ==> held == old(held) + {index} && cooling == old(cooling) - {index} && trackUsed == old(trackUsed) + 1
      ensures ok && index in old(cooling) ==> stepped[index] == 4
      ensures ok && Sound() ==> port % 2 == 0 && start <= port <= end
      ensures ok && Sound() ==> port !in Ports(old(held)) && Ports(held) == Ports(old(held)) + {port}
      ensures !ok ==> port == 0 && track[..] == old(track[..]) && trackUsed == old(trackUsed)
                      && held == old(held) && cooling == old(cooling) && stepped == old(stepped)
    {
      ok, port, index, passes := false, 0, 0, 0;
      FullIff();
      while trackUsed < trackLen
        invariant Valid() && held == old(held) && cooling == old(cooling) && trackUsed == old(trackUsed)
        invariant passes == 0 ==> track[..] == old(track[..]) && stepped == old(stepped)
        invariant trackUsed == trackLen ==> passes == 0
        invariant passes <= 4
        invariant forall i :: 0 <= i < trackLen && i !in held ==> track[i] >= COOL_DOWN + passes
        decreases 5 - passes
      {
        ok, index := Pass(Pick(rand(passes), trackLen), COOL_DOWN + passes);
        passes := passes + 1;
        if ok {
          port := GrantPort(index);
          return;
        }
      }
    }

    lemma FullIff()
      requires Valid()
      ensures trackUsed <= trackLen
      ensures trackUsed == trackLen <==> held == Below(trackLen)
      ensures trackUsed < trackLen ==> exists i: nat :: i < trackLen && i !in held
    {
      var rest := Below(trackLen) - held;
      assert Below(trackLen) == held + rest;
      if trackUsed < trackLen {
        var i :| i in rest;
      }
    }

    /** The even port that a port stands for when it is freed: the halving of its distance from the start
        takes an odd port for its neighbour toward the start. */
    function Twin(port: nat): nat {
      if port % 2 == 0 then port else if port < start then port + 1 else port - 1
    }

    /** free_port: undoes a grant and starts the cool-down; freeing a port twice changes nothing. It frees
        a port exactly if that port is held, but an odd port stands for its even neighbour. */
    method Free(port: nat) returns (ok: bool)
      requires Valid() && 0 <= Slot(start, even, odd, port) < trackLen + 2
      modifies this, track
      ensures Valid()
      ensures var index := Slot(start, even, odd, port);
              && ok == (index in old(held))
              && held == old(held) - {index}
              && (ok ==> cooling == old(cooling) + {index} && stepped == old(stepped)[index := 0])
              && (ok ==> trackUsed == old(trackUsed) - 1)
      ensures !ok ==> track[..] == old(track[..]) && trackUsed == old(trackUsed)
      ensures !ok ==> cooling == old(cooling) && stepped == old(stepped)
      ensures Sound() ==> (ok <==> Twin(port) in Ports(old(held))) && Ports(held) == Ports(old(held)) - {Twin(port)}
    {
      var index := SlotOf(port);
      ok := track[index] > 0;
      if ok {
        CoolDown(index);
      }
      if Sound() {
        FreedPort(old(held), port);
      }
    }

    method CoolDown(index: nat)
      requires Valid() && index < trackLen && track[index] > 0
      modifies this, track
      ensures Valid() && index in old(held) && held == old(held) - {index} && trackUsed == old(trackUsed) - 1
      ensures cooling == old(cooling) + {index} && stepped == old(stepped)[index := 0]
    {
      track[index] := COOL_DOWN;
      trackUsed := trackUsed - 1;
      held, cooling, stepped := held - {index}, cooling + {index}, stepped[index := 0];
    }

    method SlotOf(port: nat) returns (index: int)
      ensures index == Slot(start, even, odd, port)
    {
      index := port - start;
      if !(even && odd) {
        index := Half(index);
      }
    }

    lemma TwinSlot(port: nat)
      requires Sound() && Slot(start, even, odd, port) >= 0
      ensures Twin(port) == start + 2 * Slot(start, even, odd, port)
    {
    }

    lemma FreedPort(slots: set<nat>, port: nat)
      requires Sound() && slots <= Below(trackLen) && Slot(start, even, odd, port) >= 0
      ensures var index := Slot(start, even, odd, port);
              && (index in slots <==> Twin(port) in Ports(slots))
              && Ports(slots - {index}) == Ports(slots) - {Twin(port)}
    {
      TwinSlot(port);
      FreedSlot(slots, Slot(start, even, odd, port), Twin(port));
    }

    lemma FreedSlot(slots: set<nat>, index: nat, port: nat)
      requires Sound() && slots <= Below(trackLen) && port == start + 2 * index
      ensures index in slots <==> port in Ports(slots)
      ensures Ports(slots - {index}) == Ports(slots) - {port}
    {
      if index in slots {
        EvenPorts(start, end, even, odd, index);
        assert slots == (slots - {index}) + {index};
        FreedHeld(slots - {index}, index, Ports(slots - {index}), Ports(slots));
      } else {
        NotHeld(slots, index, port);
        assert slots - {index} == slots;
      }
    }

    lemma FreedHeld(rest: set<nat>, index: nat, left: set<nat>, all: set<nat>)
      requires Sound() && rest <= Below(trackLen) && index < trackLen && index !in rest
      requires left == Ports(rest) && all == Ports(rest + {index})
      ensures var p := Port(start, even, odd, index); p in all && left == all - {p}
    {
      OwnPort(rest, index);
    }

    lemma NotHeld(slots: set<nat>, index: nat, port: nat)
      requires Sound() && slots <= Below(trackLen) && index !in slots && port == start + 2 * index
      ensures port !in Ports(slots)
    {
      forall i | i in slots
        ensures Port(start, even, odd, i) != port
      {
        EvenPorts(start, end, even, odd, i);
      }
    }
  }
}
