/** The id generator: 64-bit words that hold milliseconds since a custom epoch, a node number and a
    sequence number, side by side. Readings of the clock are given in milliseconds since that epoch. */
module Snowflake {
  import opened Bits
  import opened Common

  const NODE_MAX := 1023
  const SEQUENCE_MASK := 4095
  const TIME_UNIT := 0x40_0000
  const NODE_UNIT := 0x1000
  /** The first time that no longer fits beside the other fields in a signed word. */
  const TIME_END := 0x200_0000_0000

  /** The value of the low 64 bits of `x`, read as a signed word. */
  function Signed64(x: int): int {
    (x + 0x8000_0000_0000_0000) % 0x1_0000_0000_0000_0000 - 0x8000_0000_0000_0000
  }

  function Pack(time: int, node: int, sequence: int): int {
    Signed64(time * TIME_UNIT + node * NODE_UNIT + sequence)
  }

  /** The low 64 bits of a word, as a natural number. */
  function Unsigned64(x: int): nat { x % 0x1_0000_0000_0000_0000 }

  /** Shifting the three fields into place in a 64-bit word and or-ing them packs them, for every
      time: bits shifted out at the top are lost either way. */
  lemma OrIsPack(time: int, node: nat, sequence: nat)
    requires node <= NODE_MAX && sequence <= SEQUENCE_MASK
    ensures var shifted := Unsigned64(Shl(Unsigned64(time), 22));
            Signed64(Or(Or(shifted, Shl(node, 12)), sequence)) == Pack(time, node, sequence)
  {
    Powers();
    var word := Unsigned64(time);
    var over, high := word / 0x400_0000_0000, word % 0x400_0000_0000;
    ShiftedOut(word, over, high);
    OrIsWord(high, node, sequence);
    SameLowBits(time * TIME_UNIT + node * NODE_UNIT + sequence, high * TIME_UNIT + node * NODE_UNIT + sequence,
                time / 0x1_0000_0000_0000_0000 * TIME_UNIT + over);
  }

  lemma OrIsWord(high: nat, node: nat, sequence: nat)
    requires node <= NODE_MAX && sequence <= SEQUENCE_MASK
    ensures Or(Or(high * TIME_UNIT, Shl(node, 12)), sequence) == high * TIME_UNIT + node * NODE_UNIT + sequence
  {
    Powers();
    OrIsSum(high, node * NODE_UNIT, 22);
    OrIsSum(high * 1024 + node, sequence, 12);
  }

  lemma ShiftedOut(word: nat, over: nat, high: nat)
    requires word == over * 0x400_0000_0000 + high && high < 0x400_0000_0000
    ensures Unsigned64(word * TIME_UNIT) == high * TIME_UNIT
  {
    Remainder(word * TIME_UNIT, 0x1_0000_0000_0000_0000, over, high * TIME_UNIT);
  }

  lemma SameLowBits(a: int, b: int, k: int)
    requires a == b + 0x1_0000_0000_0000_0000 * k
    ensures Signed64(a) == Signed64(b)
  {
    var q, r := (b + 0x8000_0000_0000_0000) / 0x1_0000_0000_0000_0000,
        (b + 0x8000_0000_0000_0000) % 0x1_0000_0000_0000_0000;
    Remainder(a + 0x8000_0000_0000_0000, 0x1_0000_0000_0000_0000, q + k, r);
  }

  predicate Fits(time: int, node: int, sequence: int) {
    -TIME_END <= time < TIME_END && 0 <= node <= NODE_MAX && 0 <= sequence <= SEQUENCE_MASK
  }

  /** An id decodes back to the time, node and sequence it was made of. */
  lemma Unpack(time: int, node: int, sequence: int)
    requires Fits(time, node, sequence)
    ensures var id := Pack(time, node, sequence);
            && id == time * TIME_UNIT + node * NODE_UNIT + sequence
            && id / TIME_UNIT == time && id / NODE_UNIT % (NODE_MAX + 1) == node && id % (SEQUENCE_MASK + 1) == sequence
  {
  }

  /** On one node, ids are ordered by time and then by sequence number. */
  lemma PackOrder(time: int, sequence: int, time': int, sequence': int, node: int)
    requires Fits(time, node, sequence) && Fits(time', node, sequence')
    ensures Pack(time, node, sequence) < Pack(time', node, sequence')
            <==> time < time' || (time == time' && sequence < sequence')
  {
    Unpack(time, node, sequence);
    Unpack(time', node, sequence');
  }

  /** The node and the sequence number survive at any time, even one that does not fit. */
  lemma LowFields(time: int, node: int, sequence: int)
    requires 0 <= node <= NODE_MAX && 0 <= sequence <= SEQUENCE_MASK
    ensures Pack(time, node, sequence) % TIME_UNIT == node * NODE_UNIT + sequence
  {
    var wraps := (time * TIME_UNIT + node * NODE_UNIT + sequence + 0x8000_0000_0000_0000) / 0x1_0000_0000_0000_0000;
    Remainder(Pack(time, node, sequence), TIME_UNIT, time - wraps * 0x400_0000_0000, node * NODE_UNIT + sequence);
  }

  /** Ids of different nodes never meet, whatever their clocks say. */
  lemma NodesNeverCollide(time: int, node: int, sequence: int, time': int, node': int, sequence': int)
    requires 0 <= node <= NODE_MAX && 0 <= sequence <= SEQUENCE_MASK
    requires 0 <= node' <= NODE_MAX && 0 <= sequence' <= SEQUENCE_MASK && node != node'
    ensures Pack(time, node, sequence) != Pack(time', node', sequence')
  {
    LowFields(time, node, sequence);
    LowFields(time', node', sequence');
  }

  /** The order of time is lost as soon as the clock leaves the 41-bit range. */
  lemma OrderEndsWithTheRange(node: int, sequence: int)
    requires 0 <= node <= NODE_MAX && 0 <= sequence <= SEQUENCE_MASK
    ensures Pack(TIME_END, node, sequence) < 0 < Pack(TIME_END - 1, node, sequence)
  {
  }

  // ---- One node over time -----------------------------------------------------------------

  datatype State = State(timestamp: int, sequence: int)

  /** The readings of one call: the first, and the one that ends the wait when the sequence is
      used up within its millisecond. */
  datatype Reading = Reading(first: int, later: int)

  predicate Exhausted(s: State, first: int) { first == s.timestamp && s.sequence == SEQUENCE_MASK }

  function Advance(s: State, r: Reading): State {
    if Exhausted(s, r.first) then State(r.later, 0)
    else if r.first == s.timestamp then State(r.first, s.sequence + 1)
    else State(r.first, 0)
  }

  predicate Sane(s: State) { -TIME_END <= s.timestamp < TIME_END && 0 <= s.sequence <= SEQUENCE_MASK }

  /** What a call may read: within range, and past the exhausted millisecond when it waits. */
  predicate Readable(s: State, r: Reading) {
    -TIME_END <= r.first < TIME_END && (Exhausted(s, r.first) ==> s.timestamp < r.later < TIME_END)
  }

  function IdOf(s: State, node: int): int { Pack(s.timestamp, node, s.sequence) }

  /** A call's id exceeds the node's previous one exactly when the clock has not gone back. */
  lemma IncreasesIff(s: State, r: Reading, node: int)
    requires Sane(s) && Readable(s, r) && 0 <= node <= NODE_MAX
    ensures Sane(Advance(s, r))
    ensures IdOf(s, node) < IdOf(Advance(s, r), node) <==> s.timestamp <= r.first
  {
    var s' := Advance(s, r);
    PackOrder(s.timestamp, s.sequence, s'.timestamp, s'.sequence, node);
  }

  /** The states a node goes through over a list of calls. */
  function States(s: State, readings: seq<Reading>): seq<State>
    ensures |States(s, readings)| == |readings| + 1 && States(s, readings)[0] == s
    decreases |readings|
  {
    if readings == [] then [s] else [s] + States(Advance(s, readings[0]), readings[1..])
  }

  lemma {:induction false} StatesStep(s: State, readings: seq<Reading>, i: nat)
    requires i < |readings|
    ensures States(s, readings)[i + 1] == Advance(States(s, readings)[i], readings[i])
    decreases i
  {
    if i > 0 {
      StatesStep(Advance(s, readings[0]), readings[1..], i - 1);
    }
  }

  /** Calls within one new millisecond are numbered from 0, and no call has to wait before all 4096
      numbers are used. */
  lemma {:induction false} NumberedFromZero(s: State, readings: seq<Reading>, time: int, i: nat)
    requires s.timestamp != time && i < |readings| && i <= SEQUENCE_MASK
    requires forall k :: 0 <= k <= i ==> readings[k].first == time
    ensures States(s, readings)[i + 1] == State(time, i)
    ensures Exhausted(States(s, readings)[i + 1], time) <==> i == 4095
  {
    StatesStep(s, readings, i);
    if i > 0 {
      NumberedFromZero(s, readings, time, i - 1);
    }
  }

  /** The clock never shows less than a call before has seen. */
  ghost predicate Forward(s: State, readings: seq<Reading>) {
    var states := States(s, readings);
    forall i :: 0 <= i < |readings| ==> Readable(states[i], readings[i]) && states[i].timestamp <= readings[i].first
  }

  /** With a clock that never goes back, all ids of a node are strictly increasing, over any number
      of calls, waits included. */
  lemma {:induction false} StrictlyIncreasing(s: State, readings: seq<Reading>, node: int, i: nat, j: nat)
    requires Sane(s) && Forward(s, readings) && 0 <= node <= NODE_MAX && i < j <= |readings|
    ensures Sane(States(s, readings)[i]) && Sane(States(s, readings)[j])
    ensures IdOf(States(s, readings)[i], node) < IdOf(States(s, readings)[j], node)
    decreases j
  {
    var states := States(s, readings);
    SaneStates(s, readings, node, j - 1);
    SaneStates(s, readings, node, i);
    StatesStep(s, readings, j - 1);
    IncreasesIff(states[j - 1], readings[j - 1], node);
    if i < j - 1 {
      StrictlyIncreasing(s, readings, node, i, j - 1);
    }
  }

  lemma {:induction false} SaneStates(s: State, readings: seq<Reading>, node: int, i: nat)
    requires Sane(s) && Forward(s, readings) && 0 <= node <= NODE_MAX && i <= |readings|
    ensures Sane(States(s, readings)[i])
  {
    if i > 0 {
      SaneStates(s, readings, node, i - 1);
      StatesStep(s, readings, i - 1);
      IncreasesIff(States(s, readings)[i - 1], readings[i - 1], node);
    }
  }

  /** A clock that steps back by a millisecond and recovers makes the node repeat an id. */
  lemma BackwardClockRepeats(node: int)
    ensures var states := States(State(0, 0), [Reading(5, 5), Reading(4, 4), Reading(5, 5)]);
            IdOf(states[1], node) == IdOf(states[3], node)
  {
  }

  /** Counts on within twelve bits. */
  method NextInSequence(sequence: nat) returns (next: nat)
    requires sequence <= SEQUENCE_MASK
    ensures next == (sequence + 1) % (SEQUENCE_MASK + 1)
  {
    Powers();
    AndIsRemainder(sequence + 1, 12, SEQUENCE_MASK);
    next := And(sequence + 1, SEQUENCE_MASK);
  }

  /** Shifts the fields of an id into place and or-s them together. */
  method Compose(time: int, node: nat, sequence: nat) returns (id: int)
    requires node <= NODE_MAX && sequence <= SEQUENCE_MASK
    ensures id == Pack(time, node, sequence)
  {
    OrIsPack(time, node, sequence);
    id := Signed64(Or(Or(Unsigned64(Shl(Unsigned64(time), 22)), Shl(node, 12)), sequence));
  }

  class Generator {
    const nodeId: int
    var timestamp: int
    var sequence: int

    ghost predicate Valid()
      reads this
    {
      0 <= nodeId <= NODE_MAX && Sane(Current())
    }

    ghost function Current(): State
      reads this
    {
      State(timestamp, sequence)
    }

    constructor (nodeId: int)
      requires 0 <= nodeId <= NODE_MAX
      ensures Valid() && this.nodeId == nodeId && Current() == State(0, 0)
    {
      this.nodeId := nodeId;
      timestamp, sequence := 0, 0;
    }

    /** Refuses a node number that does not fit its ten bits. */
    static method New(nodeId: int) returns (g: Generator?)
      ensures g == null <==> nodeId < 0 || nodeId > NODE_MAX
      ensures g != null ==> fresh(g) && g.Valid() && g.nodeId == nodeId && g.Current() == State(0, 0)
    {
      if nodeId < 0 || nodeId > NODE_MAX {
        return null;
      }
      g := new Generator(nodeId);
    }

    /** Reads the clock once, and again until it moves on if this millisecond's numbers are used
        up; `clock` is what it will show, and it must move on in the end. */
    method Generate(clock: seq<int>) returns (id: int, ghost read: Reading)
      requires Valid() && clock != [] && (forall i :: 0 <= i < |clock| ==> -TIME_END <= clock[i] < TIME_END)
      requires Exhausted(Current(), clock[0]) ==> exists i :: 0 < i < |clock| && timestamp < clock[i]
      modifies this
      ensures Valid() && read.first == clock[0] && Readable(old(Current()), read)
      ensures Current() == Advance(old(Current()), read) && id == IdOf(Current(), nodeId)
    {
      var now := clock[0];
      read := Reading(now, now);
      if now == timestamp {
        sequence := NextInSequence(sequence);
        if sequence == 0 {
          var i := 0;
          while now <= timestamp
            invariant 0 <= i < |clock| && now == clock[i] && timestamp == old(timestamp) && sequence == 0
            invariant now <= timestamp ==> exists k :: i < k < |clock| && timestamp < clock[k]
            decreases |clock| - i
          {
            i := i + 1;
            now := clock[i];
          }
          read := Reading(clock[0], now);
        }
      } else {
        sequence := 0;
      }
      timestamp := now;
      id := Compose(now, nodeId, sequence);
    }
  }
}
