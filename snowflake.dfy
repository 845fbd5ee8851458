/**
 * The Snowflake identifier generator. An identifier packs, from the most significant end,
 * 41 bits of milliseconds since a fixed epoch, a 10-bit machine id and a 12-bit sequence
 * that counts identifiers minted within one millisecond. The clock is not read here: each
 * call receives the reading it would take, and the readings the wait loop would take.
 */
module SnowflakeId {
  import opened Wrappers
  import opened JavaInts

  /** 2021-01-01T00:00:00Z in milliseconds since the Unix epoch. */
  const Epoch: int := 1609459200000
  const MachineIdBits: nat := 10
  const SequenceBits: nat := 12

  /** `~(-1L << machineIdBits)` and `~(-1L << sequenceBits)`, evaluated on 64-bit words. */
  const MaxMachineId: int := (!((!(0 as bv64)) << MachineIdBits)) as int
  const MaxSequence: int := (!((!(0 as bv64)) << SequenceBits)) as int

  /** `1 << sequenceBits` and `1 << (sequenceBits + machineIdBits)`: the weights of the machine id and the timestamp. */
  const MachineUnit: int := 0x1000
  const TimestampUnit: int := 0x40_0000

  /** 2^41: the number of milliseconds the timestamp field can hold. */
  const TimestampSpan: int := 0x200_0000_0000

  datatype IdError = InvalidMachineId | ClockMovedBackwards

  lemma MaskValues()
    ensures MaxMachineId == 1023 && MaxSequence == 4095
    ensures MachineUnit == MaxSequence + 1 && TimestampUnit == (MaxMachineId + 1) * MachineUnit
  {
  }

  /** The constructor's range check on the machine id. */
  function CheckMachineId(machineId: int): (r: Result<int, IdError>)
    ensures r.Success? <==> 0 <= machineId <= 1023
    ensures r.Success? ==> r.value == machineId
    ensures r.Failure? ==> r.error == InvalidMachineId
  {
    if machineId < 0 || machineId > MaxMachineId then Failure(InvalidMachineId) else Success(machineId)
  }

  /**
   * `((timestamp - epoch) << 22) | (machineId << 12) | sequence` on Java longs. The shifts leave
   * the low bits zero and the machine id and sequence fit below them, so each `|` adds; what
   * remains of 64-bit arithmetic is the wrap-around of the sum.
   */
  function MakeId(timestamp: int, machineId: int, sequence: int): (id: int)
    ensures -TwoTo63 <= id < TwoTo63
    ensures (id - ((timestamp - Epoch) * TimestampUnit + machineId * MachineUnit + sequence)) % TwoTo64 == 0
  {
    ToInt64((timestamp - Epoch) * TimestampUnit + machineId * MachineUnit + sequence)
  }

  /** Field extraction: the inverse of the packing, for identifiers whose fields are in range. */
  function SequenceOf(id: int): int { id % MachineUnit }
  function MachineIdOf(id: int): int { (id / MachineUnit) % (MaxMachineId + 1) }
  function TimestampOf(id: int): int { id / TimestampUnit + Epoch }

  /** Timestamps whose distance from the epoch fits the 41-bit field. */
  predicate InRange(timestamp: int) {
    Epoch <= timestamp < Epoch + TimestampSpan
  }

  /** The order in which (lastTimestamp, sequence) pairs are produced: by time, then by sequence. */
  predicate Precedes(t1: int, s1: int, t2: int, s2: int) {
    t1 < t2 || (t1 == t2 && s1 < s2)
  }

  /** For an in-range timestamp the identifier is the plain sum, is non-negative, and its three fields read back. */
  lemma IdLayout(timestamp: int, machineId: int, sequence: int)
    requires InRange(timestamp) && 0 <= machineId <= MaxMachineId && 0 <= sequence <= MaxSequence
    ensures MakeId(timestamp, machineId, sequence)
         == (timestamp - Epoch) * TimestampUnit + machineId * MachineUnit + sequence
    ensures 0 <= MakeId(timestamp, machineId, sequence) < TwoTo63
    ensures SequenceOf(MakeId(timestamp, machineId, sequence)) == sequence
    ensures MachineIdOf(MakeId(timestamp, machineId, sequence)) == machineId
    ensures TimestampOf(MakeId(timestamp, machineId, sequence)) == timestamp
  {
    MaskValues();
    var d := timestamp - Epoch;
    var raw := d * TimestampUnit + machineId * MachineUnit + sequence;
    assert 0 <= raw < TwoTo63;
    assert raw == (d * (MaxMachineId + 1) + machineId) * MachineUnit + sequence;
    assert raw / MachineUnit == d * (MaxMachineId + 1) + machineId;
    assert raw / TimestampUnit == d;
  }

  /** Within range and on one machine, identifiers are ordered exactly as their (timestamp, sequence) pairs. */
  lemma IdIncreasing(machineId: int, t1: int, s1: int, t2: int, s2: int)
    requires 0 <= machineId <= MaxMachineId
    requires InRange(t1) && InRange(t2) && 0 <= s1 <= MaxSequence && 0 <= s2 <= MaxSequence
    requires Precedes(t1, s1, t2, s2)
    ensures MakeId(t1, machineId, s1) < MakeId(t2, machineId, s2)
  {
    IdLayout(t1, machineId, s1);
    IdLayout(t2, machineId, s2);
  }

  /** The clock eventually shows a time after `last` among the given readings. */
  predicate ClockAdvances(readings: seq<int>, last: int) {
    exists i :: 0 <= i < |readings| && readings[i] > last
  }

  lemma ClockAdvancesTail(readings: seq<int>, last: int)
    requires ClockAdvances(readings, last) && readings[0] <= last
    ensures ClockAdvances(readings[1..], last)
  {
    var i :| 0 <= i < |readings| && readings[i] > last;
    assert readings[1..][i - 1] > last;
  }

  /** The position of the first reading after `last`. */
  function FirstAfterIndex(readings: seq<int>, last: int): (k: nat)
    requires ClockAdvances(readings, last)
    ensures k < |readings| && readings[k] > last
    ensures forall j :: 0 <= j < k ==> readings[j] <= last
    decreases |readings|
  {
    if readings[0] > last then 0
    else
      ClockAdvancesTail(readings, last);
      FirstAfterIndex(readings[1..], last) + 1
  }

  class SnowflakeIdGenerator {
    const machineId: int
    var sequence: int
    var lastTimestamp: int

    ghost predicate Valid()
      reads this
    {
      0 <= machineId <= MaxMachineId && 0 <= sequence <= MaxSequence
    }

    constructor (machineId: int)
      requires 0 <= machineId <= MaxMachineId
      ensures Valid() && this.machineId == machineId
      ensures sequence == 0 && lastTimestamp == -1
    {
      this.machineId := machineId;
      sequence := 0;
      lastTimestamp := -1;
    }

    /** The Java constructor: it throws for a machine id outside 0..MaxMachineId. */
    static method Create(machineId: int) returns (r: Result<SnowflakeIdGenerator, IdError>)
      ensures r.Failure? <==> CheckMachineId(machineId).Failure?
      ensures r.Failure? ==> r.error == InvalidMachineId
      ensures r.Success? ==> fresh(r.value) && r.value.Valid() && r.value.machineId == machineId
      ensures r.Success? ==> r.value.sequence == 0 && r.value.lastTimestamp == -1
    {
      if machineId < 0 || machineId > MaxMachineId {
        r := Failure(InvalidMachineId);
      } else {
        var g := new SnowflakeIdGenerator(machineId);
        r := Success(g);
      }
    }

    /** Polls the clock (the successive `readings`) until it shows a time after `lastTimestamp`. */
    method WaitNextMillis(lastTimestamp: int, readings: seq<int>) returns (timestamp: int)
      requires ClockAdvances(readings, lastTimestamp)
      ensures timestamp > lastTimestamp
      ensures timestamp == readings[FirstAfterIndex(readings, lastTimestamp)]
    {
      var i := 0;
      timestamp := readings[0];
      while timestamp <= lastTimestamp
        invariant 0 <= i <= FirstAfterIndex(readings, lastTimestamp)
        invariant timestamp == readings[i]
        decreases FirstAfterIndex(readings, lastTimestamp) - i
      {
        i := i + 1;
        timestamp := readings[i];
      }
    }

    /**
     * One `nextId` call: `now` is the clock reading it takes first and `later` the readings the
     * wait loop takes when the sequence wraps. The requirement on `later` is that the clock
     * eventually advances, which the wait loop relies on to terminate.
     */
    method NextId(now: int, later: seq<int>) returns (r: Result<int, IdError>)
      requires Valid()
      requires now == lastTimestamp && sequence == MaxSequence ==> ClockAdvances(later, lastTimestamp)
      modifies this
      ensures Valid()
      ensures now < old(lastTimestamp) ==>
        r == Failure(ClockMovedBackwards) && sequence == old(sequence) && lastTimestamp == old(lastTimestamp)
      ensures now > old(lastTimestamp) ==> sequence == 0 && lastTimestamp == now
      ensures now == old(lastTimestamp) && old(sequence) < MaxSequence ==>
        sequence == old(sequence) + 1 && lastTimestamp == now
      ensures now == old(lastTimestamp) && old(sequence) == MaxSequence ==>
        sequence == 0 && lastTimestamp == later[FirstAfterIndex(later, now)] && lastTimestamp > now
      ensures now >= old(lastTimestamp) ==> r == Success(MakeId(lastTimestamp, machineId, sequence))
      ensures r.Success? ==> Precedes(old(lastTimestamp), old(sequence), lastTimestamp, sequence)
    {
      var timestamp := now;
      if timestamp < lastTimestamp {
        return Failure(ClockMovedBackwards);
      }
      if timestamp == lastTimestamp {
        // `(sequence + 1) & maxSequence`: the mask keeps the low 12 bits of a non-negative value
        sequence := (sequence + 1) % (MaxSequence + 1);
        if sequence == 0 {
          timestamp := WaitNextMillis(lastTimestamp, later);
        }
      } else {
        sequence := 0;
      }
      lastTimestamp := timestamp;
      r := Success(MakeId(timestamp, machineId, sequence));
    }
  }

  /**
   * Two successive successful calls on one generator return increasing identifiers while the
   * clock stays within the 41-bit range.
   */
  method SuccessiveIdsIncrease(g: SnowflakeIdGenerator, now1: int, later1: seq<int>, now2: int, later2: seq<int>)
    returns (r1: Result<int, IdError>, r2: Result<int, IdError>)
    requires g.Valid()
    requires ClockAdvances(later1, now1) && ClockAdvances(later2, now2)
    requires InRange(now1) && InRange(now2)
    requires forall x :: x in later1 ==> InRange(x)
    requires forall x :: x in later2 ==> InRange(x)
    modifies g
    ensures r1.Success? && r2.Success? ==> r1.value < r2.value
  {
    r1 := g.NextId(now1, later1);
    ghost var t1, s1 := g.lastTimestamp, g.sequence;
    r2 := g.NextId(now2, later2);
    if r1.Success? && r2.Success? {
      assert InRange(t1) && InRange(g.lastTimestamp);
      IdIncreasing(g.machineId, t1, s1, g.lastTimestamp, g.sequence);
    }
  }
}
