/**
 The id generator. A call reads the clock once and, when it has used up a millisecond, reads it
 again until it has moved on. `Step` is one call on the generator's state as a value; the class
 updates the same fields in place and really spins.
 */
module Snowflake {
  import opened Wrappers
  import opened Bits

  const EPOCH := 1704067200000
  const NODE_ID_BITS := 10
  const SEQUENCE_BITS := 12
  const MAX_NODE_ID := 1023
  const MAX_SEQUENCE := 4095
  const NODE_ID_SHIFT := SEQUENCE_BITS
  const TIMESTAMP_SHIFT := SEQUENCE_BITS + NODE_ID_BITS

  // ---------------------------------------------------------------- layout

  /** `(now << 22) | (node << 12) | sequence` on 64-bit integers. */
  function Compose(time: int, node: int, sequence: int): int {
    Or(Or(ShiftLeft(time, TIMESTAMP_SHIFT), ShiftLeft(node, NODE_ID_SHIFT)), sequence)
  }

  datatype Parts = Parts(timestamp: int, node: int, sequence: int)

  function Parse(id: int): Parts {
    Parts(ShiftRight(id, TIMESTAMP_SHIFT) + EPOCH,
          And(ShiftRight(id, NODE_ID_SHIFT), MAX_NODE_ID),
          And(id, MAX_SEQUENCE))
  }

  predicate Fits(time: int, node: int, sequence: int) {
    0 <= time < TWO_TO_41 && 0 <= node <= MAX_NODE_ID && 0 <= sequence <= MAX_SEQUENCE
  }

  lemma Powers()
    ensures Pow2(12) == 4096 && Pow2(10) == 1024 && Pow2(22) == 4194304
  {
    assert Pow2(5) == 32;
    assert Pow2(10) == 1024;
    assert Pow2(12) == 4096;
    assert Pow2(15) == 32768;
    assert Pow2(20) == 1048576;
  }

  function SumOf(time: int, node: int, sequence: int): int {
    time * 4194304 + node * 4096 + sequence
  }

  /** The three fields do not overlap, so the composition is their sum; within 41 bits of time it is not negative. */
  lemma {:induction false} LayoutIsSum(time: int, node: int, sequence: int)
    requires 0 <= time < 2 * TWO_TO_41 && 0 <= node <= MAX_NODE_ID && 0 <= sequence <= MAX_SEQUENCE
    ensures var sum := SumOf(time, node, sequence);
            && Compose(time, node, sequence) == (if time < TWO_TO_41 then sum else sum - TWO_TO_64)
            && (0 <= Compose(time, node, sequence) < TWO_TO_63 <==> time < TWO_TO_41)
  {
    Powers();
    var upper := time * 4194304;
    var high := upper + node * 4096;
    assert ShiftLeft(time, TIMESTAMP_SHIFT) == Signed(upper);
    assert ShiftLeft(node, NODE_ID_SHIFT) == node * 4096;
    PatternOfSigned(upper);
    PatternOfSigned(high);
    OrLow(Signed(upper), upper, time, 22, node * 4096);
    OrLow(Signed(high), high, time * 1024 + node, 12, sequence);
  }

  /** The fields of an id that is not negative. */
  lemma ParseIsDivision(id: int)
    requires 0 <= id < TWO_TO_63
    ensures Parse(id) == Parts(id / 4194304 + EPOCH, id / 4096 % 1024, id % 4096)
  {
    Powers();
    AndLow(id / 4096, 10, MAX_NODE_ID);
    AndLow(id, 12, MAX_SEQUENCE);
  }

  lemma PartsOfSum(time: int, node: int, sequence: int)
    requires Fits(time, node, sequence)
    ensures var id := SumOf(time, node, sequence);
            id / 4194304 == time && id / 4096 % 1024 == node && id % 4096 == sequence
  {
    var id := SumOf(time, node, sequence);
    DivMod(id, 4096, time * 1024 + node, sequence);
    DivMod(time * 1024 + node, 1024, time, node);
    DivMod(id, 4194304, time, node * 4096 + sequence);
  }

  lemma {:induction false} ParseOfSum(id: int, time: int, node: int, sequence: int)
    requires Fits(time, node, sequence) && id == SumOf(time, node, sequence)
    ensures 0 <= id < TWO_TO_63 && Parse(id) == Parts(time + EPOCH, node, sequence)
  {
    PartsOfSum(time, node, sequence);
    ParseIsDivision(id);
  }

  /** Parsing inverts composing. */
  lemma {:induction false} ParseCompose(time: int, node: int, sequence: int)
    requires Fits(time, node, sequence)
    ensures 0 <= Compose(time, node, sequence) < TWO_TO_63
    ensures Parse(Compose(time, node, sequence)) == Parts(time + EPOCH, node, sequence)
  {
    LayoutIsSum(time, node, sequence);
    ParseOfSum(Compose(time, node, sequence), time, node, sequence);
  }

  /** Composing inverts parsing, on every non-negative 64-bit integer. */
  lemma {:induction false} ComposeParse(id: int)
    requires 0 <= id < TWO_TO_63
    ensures var Parts(timestamp, node, sequence) := Parse(id);
            Fits(timestamp - EPOCH, node, sequence) && Compose(timestamp - EPOCH, node, sequence) == id
  {
    ParseIsDivision(id);
    var time, node, sequence := id / 4194304, id / 4096 % 1024, id % 4096;
    assert id / 4096 / 1024 == time by {
      DivMod(id, 4194304, id / 4096 / 1024, node * 4096 + sequence);
    }
    LayoutIsSum(time, node, sequence);
  }

  // ---------------------------------------------------------------- the generator

  datatype Gen = Gen(node: int, sequence: int, lastTime: int)

  predicate Valid(g: Gen) {
    0 <= g.node <= MAX_NODE_ID && 0 <= g.sequence <= MAX_SEQUENCE && 0 <= g.lastTime
  }

  datatype NewError = InvalidNodeId

  function New(node: int): (r: Result<Gen, NewError>)
    ensures r.Ok? <==> 0 <= node <= 1023
    ensures r.Ok? ==> Valid(r.value) && r.value.node == node && r.value.sequence == r.value.lastTime == 0
  {
    if node < 0 || node > MAX_NODE_ID then Err(InvalidNodeId) else Ok(Gen(node, 0, 0))
  }

  /** A call's first reading of the clock and, if it spins, the reading that ends the spin; both since the epoch. */
  datatype Call = Call(now: int, after: int)

  /** The call finds its millisecond used up. */
  predicate Spins(g: Gen, now: int) {
    now == g.lastTime && And(g.sequence + 1, MAX_SEQUENCE) == 0
  }

  predicate Succeeds(g: Gen, c: Call) {
    c.now >= g.lastTime && (Spins(g, c.now) ==> c.after > g.lastTime)
  }

  /** The state after one call: a backward clock is an error, and a spin that never ends changes nothing anyone sees. */
  function Step(g: Gen, c: Call): Gen {
    if !Succeeds(g, c) then g
    else if Spins(g, c.now) then Gen(g.node, 0, c.after)
    else if c.now == g.lastTime then Gen(g.node, And(g.sequence + 1, MAX_SEQUENCE), c.now)
    else Gen(g.node, 0, c.now)
  }

  function IdOf(g: Gen): int {
    Compose(g.lastTime, g.node, g.sequence)
  }

  function Run(g: Gen, calls: seq<Call>): Gen
    decreases |calls|
  {
    if calls == [] then g else Run(Step(g, calls[0]), calls[1..])
  }

  /** The ids a run of calls returns. */
  function Ids(g: Gen, calls: seq<Call>): seq<int>
    decreases |calls|
  {
    if calls == [] then []
    else
      var g' := Step(g, calls[0]);
      (if Succeeds(g, calls[0]) then [IdOf(g')] else []) + Ids(g', calls[1..])
  }

  datatype GenerateError = ClockMovedBackwards

  /** Reads the clock until it has passed `last`. */
  method SpinPast(clock: nat -> int, pos: nat, last: int) returns (now: int, end: nat)
    requires exists j: nat :: j >= pos && clock(j) > last
    ensures end > pos && now == clock(end - 1) > last
    ensures forall j :: pos <= j < end - 1 ==> clock(j) <= last
  {
    ghost var j: nat :| j >= pos && clock(j) > last;
    now, end := clock(pos), pos + 1;
    while now <= last
      invariant pos < end <= j + 1 && now == clock(end - 1)
      invariant forall i :: pos <= i < end - 1 ==> clock(i) <= last
      decreases j + 1 - end
    {
      now := clock(end);
      end := end + 1;
    }
  }

  class Generator {
    const nodeID: int
    var sequence: int
    var lastTime: int

    function Value(): Gen
      reads this
    {
      Gen(nodeID, sequence, lastTime)
    }

    constructor (g: Gen)
      ensures Value() == g
    {
      nodeID, sequence, lastTime := g.node, g.sequence, g.lastTime;
    }

    /** Moves the sequence on for a reading `now` of the clock; a wrap to 0 waits for the next millisecond. */
    method NextInMillisecond(clock: nat -> int, pos: nat, first: int) returns (now: int, end: nat)
      requires Spins(Value(), first) ==> exists j: nat :: j >= pos && clock(j) > lastTime
      requires first == lastTime
      modifies this`sequence
      ensures sequence == And(old(sequence) + 1, MAX_SEQUENCE)
      ensures if sequence == 0 then
                && end > pos && now == clock(end - 1) > lastTime
                && forall j :: pos <= j < end - 1 ==> clock(j) <= lastTime
              else now == first && end == pos
    {
      now, end := first, pos;
      sequence := And(sequence + 1, MAX_SEQUENCE);
      if sequence == 0 {
        now, end := SpinPast(clock, pos, lastTime);
      }
    }

    /** Moves time and sequence on; not `ok` when the clock went backwards. */
    method Advance(clock: nat -> int, pos: nat) returns (ok: bool, end: nat)
      requires Spins(Value(), clock(pos)) ==> exists j: nat :: j > pos && clock(j) > lastTime
      modifies this
      ensures end > pos
      ensures ok <==> clock(pos) >= old(lastTime)
      ensures ok == Succeeds(old(Value()), Call(clock(pos), clock(end - 1)))
      ensures if ok then lastTime == clock(end - 1) >= clock(pos) else Value() == old(Value())
      ensures Value() == Step(old(Value()), Call(clock(pos), clock(end - 1)))
      ensures if Spins(old(Value()), clock(pos)) then forall j :: pos < j < end - 1 ==> clock(j) <= old(lastTime)
              else end == pos + 1
    {
      var now := clock(pos);
      end := pos + 1;
      if now < lastTime {
        return false, end;
      }
      if now == lastTime {
        ghost var before := Value();
        now, end := NextInMillisecond(clock, end, now);
        assert Step(before, Call(clock(pos), clock(end - 1))) == Gen(nodeID, sequence, now);
      } else {
        sequence := 0;
      }
      lastTime := now;
      return true, end;
    }

    /**
     Reads `clock` from position `pos` on and returns the first position not read. A spin needs the
     clock to pass `lastTime` some time; it ends at the first reading that does.
     */
    method Generate(clock: nat -> int, pos: nat) returns (r: Result<int, GenerateError>, end: nat)
      requires Spins(Value(), clock(pos)) ==> exists j: nat :: j > pos && clock(j) > lastTime
      modifies this
      ensures end > pos
      ensures Value() == Step(old(Value()), Call(clock(pos), clock(end - 1)))
      ensures r == if clock(pos) >= old(lastTime) then Ok(Compose(lastTime, nodeID, sequence)) else Err(ClockMovedBackwards)
      ensures if r.Ok? then lastTime == clock(end - 1) >= clock(pos) else Value() == old(Value())
      ensures if Spins(old(Value()), clock(pos)) then forall j :: pos < j < end - 1 ==> clock(j) <= old(lastTime)
              else end == pos + 1
    {
      var ok;
      ok, end := Advance(clock, pos);
      if !ok {
        return Err(ClockMovedBackwards), end;
      }
      return Ok(Compose(lastTime, nodeID, sequence)), end;
    }
  }

  // ---------------------------------------------------------------- runs

  /** Time and sequence as one number, which every successful call increases. */
  function Key(g: Gen): int {
    g.lastTime * 4096 + g.sequence
  }

  lemma MaskIsRemainder(x: int)
    requires 0 <= x < TWO_TO_63
    ensures And(x, MAX_SEQUENCE) == x % 4096
  {
    Powers();
    AndLow(x, 12, MAX_SEQUENCE);
  }

  lemma NextRemainder(sequence: int)
    requires 0 <= sequence <= MAX_SEQUENCE
    ensures (sequence + 1) % 4096 == if sequence == MAX_SEQUENCE then 0 else sequence + 1
  {
  }

  /** One call, with the masked successor of the sequence already known. */
  function StepTo(g: Gen, c: Call, next: int): Gen {
    if c.now < g.lastTime then g
    else if c.now > g.lastTime then Gen(g.node, 0, c.now)
    else if next != 0 then Gen(g.node, next, c.now)
    else if c.after > g.lastTime then Gen(g.node, 0, c.after)
    else g
  }

  lemma StepIsStepTo(g: Gen, c: Call)
    ensures Step(g, c) == StepTo(g, c, And(g.sequence + 1, MAX_SEQUENCE))
    ensures Succeeds(g, c) <==>
              c.now > g.lastTime || (c.now == g.lastTime && (And(g.sequence + 1, MAX_SEQUENCE) != 0 || c.after > g.lastTime))
  {
  }

  lemma StepToAdvances(g: Gen, c: Call, next: int)
    requires Valid(g) && next == if g.sequence == MAX_SEQUENCE then 0 else g.sequence + 1
    ensures var g' := StepTo(g, c, next);
            && Valid(g') && g'.node == g.node && g'.lastTime >= g.lastTime
            && (if c.now > g.lastTime || (c.now == g.lastTime && (next != 0 || c.after > g.lastTime)) then Key(g') > Key(g) else g' == g)
  {
  }

  /** One call exactly: a backward clock fails it; otherwise the sequence moves on within a millisecond, waiting at its end, and starts again at 0. */
  lemma StepExactly(g: Gen, c: Call)
    requires Valid(g)
    ensures Succeeds(g, c) <==>
              c.now > g.lastTime || (c.now == g.lastTime && (g.sequence < MAX_SEQUENCE || c.after > g.lastTime))
    ensures Step(g, c) == if c.now > g.lastTime then Gen(g.node, 0, c.now)
                          else if c.now == g.lastTime && g.sequence < MAX_SEQUENCE then Gen(g.node, g.sequence + 1, c.now)
                          else if c.now == g.lastTime && c.after > g.lastTime then Gen(g.node, 0, c.after)
                          else g
  {
    MaskIsRemainder(g.sequence + 1);
    NextRemainder(g.sequence);
    StepIsStepTo(g, c);
  }

  lemma StepAdvances(g: Gen, c: Call)
    requires Valid(g)
    ensures Valid(Step(g, c)) && Step(g, c).node == g.node
    ensures if Succeeds(g, c) then Key(Step(g, c)) > Key(g) else Step(g, c) == g
    ensures Step(g, c).lastTime >= g.lastTime
  {
    MaskIsRemainder(g.sequence + 1);
    NextRemainder(g.sequence);
    StepIsStepTo(g, c);
    StepToAdvances(g, c, (g.sequence + 1) % 4096);
  }

  lemma {:induction false} RunAdvances(g: Gen, calls: seq<Call>)
    requires Valid(g)
    ensures Valid(Run(g, calls)) && Run(g, calls).node == g.node && g.lastTime <= Run(g, calls).lastTime
    ensures Key(Run(g, calls)) >= Key(g) + |Ids(g, calls)|
    decreases |calls|
  {
    if calls != [] {
      StepAdvances(g, calls[0]);
      RunAdvances(Step(g, calls[0]), calls[1..]);
    }
  }

  lemma LaterSum(g: Gen, g': Gen)
    requires Valid(g) && Valid(g') && g.node == g'.node && Key(g) < Key(g')
    ensures SumOf(g.lastTime, g.node, g.sequence) < SumOf(g'.lastTime, g'.node, g'.sequence)
  {
  }

  lemma LaterKeyLargerId(g: Gen, g': Gen)
    requires Valid(g) && Valid(g') && g.node == g'.node && g'.lastTime < TWO_TO_41
    requires Key(g) < Key(g')
    ensures IdOf(g) < IdOf(g')
  {
    LayoutIsSum(g.lastTime, g.node, g.sequence);
    LayoutIsSum(g'.lastTime, g'.node, g'.sequence);
    LaterSum(g, g');
  }

  /**
   For every trace of the clock, backward jumps and jumps during a spin included: the ids of a run
   are strictly increasing, as long as the elapsed time stays within 41 bits.
   */
  lemma {:induction false} StrictlyIncreasing(g: Gen, calls: seq<Call>)
    requires Valid(g) && Run(g, calls).lastTime < TWO_TO_41
    ensures var ids := Ids(g, calls);
            && (forall i :: 0 <= i < |ids| ==> IdOf(g) < ids[i])
            && (forall i, j :: 0 <= i < j < |ids| ==> ids[i] < ids[j])
    decreases |calls|
  {
    if calls != [] {
      var g' := Step(g, calls[0]);
      StepAdvances(g, calls[0]);
      RunAdvances(g', calls[1..]);
      StrictlyIncreasing(g', calls[1..]);
      if Succeeds(g, calls[0]) {
        LaterKeyLargerId(g, g');
      }
    }
  }

  /** After k successful calls time * 4096 + sequence has reached k. */
  lemma RateBound(node: int, calls: seq<Call>)
    requires New(node).Ok?
    ensures var g := New(node).value;
            Run(g, calls).lastTime * 4096 + Run(g, calls).sequence >= |Ids(g, calls)|
  {
    RunAdvances(New(node).value, calls);
  }

  /** The key an id carries. */
  function KeyOfId(id: int): int {
    (Parse(id).timestamp - EPOCH) * 4096 + Parse(id).sequence
  }

  lemma {:induction false} IdCarriesKey(g: Gen)
    requires Valid(g) && g.lastTime < TWO_TO_41
    ensures KeyOfId(IdOf(g)) == Key(g) && Parse(IdOf(g)) == Parts(g.lastTime + EPOCH, g.node, g.sequence)
  {
    ParseCompose(g.lastTime, g.node, g.sequence);
  }

  lemma {:induction false} KeysIncrease(g: Gen, calls: seq<Call>)
    requires Valid(g) && Run(g, calls).lastTime < TWO_TO_41
    ensures var ids := Ids(g, calls);
            && (forall i :: 0 <= i < |ids| ==> KeyOfId(ids[i]) >= Key(g) + i + 1 && Parse(ids[i]).node == g.node
                                               && 0 <= Parse(ids[i]).sequence <= MAX_SEQUENCE)
            && (forall i, j :: 0 <= i <= j < |ids| ==> KeyOfId(ids[j]) - KeyOfId(ids[i]) >= j - i)
    decreases |calls|
  {
    if calls != [] {
      var g' := Step(g, calls[0]);
      StepAdvances(g, calls[0]);
      RunAdvances(g', calls[1..]);
      KeysIncrease(g', calls[1..]);
      IdCarriesKey(g');
    }
  }

  /**
   n consecutive ids, the i-th to the j-th, span at least ceil(n / 4096) - 1 milliseconds; so no
   more than 4096 ids share one.
   */
  lemma {:induction false} IdsNeedTime(g: Gen, calls: seq<Call>, i: nat, j: nat)
    requires Valid(g) && Run(g, calls).lastTime < TWO_TO_41
    requires i <= j < |Ids(g, calls)|
    ensures var ids := Ids(g, calls);
            var n := j - i + 1;
            && Parse(ids[j]).timestamp - Parse(ids[i]).timestamp >= (n + 4095) / 4096 - 1
            && (Parse(ids[i]).timestamp == Parse(ids[j]).timestamp ==> n <= 4096)
  {
    KeysIncrease(g, calls);
  }

  /** Generators on different nodes never produce the same id. */
  lemma {:induction false} NodesNeverCollide(g: Gen, calls: seq<Call>, h: Gen, others: seq<Call>, i: nat, j: nat)
    requires Valid(g) && Valid(h) && g.node != h.node
    requires Run(g, calls).lastTime < TWO_TO_41 && Run(h, others).lastTime < TWO_TO_41
    requires i < |Ids(g, calls)| && j < |Ids(h, others)|
    ensures Ids(g, calls)[i] != Ids(h, others)[j]
  {
    KeysIncrease(g, calls);
    KeysIncrease(h, others);
  }

  /** The last id of a run is the one its final state carries; without an id the state is the first. */
  lemma {:induction false} LastIdIsTheStates(g: Gen, calls: seq<Call>)
    ensures var ids := Ids(g, calls);
            if ids == [] then Run(g, calls) == g else ids[|ids| - 1] == IdOf(Run(g, calls))
    decreases |calls|
  {
    if calls != [] {
      LastIdIsTheStates(Step(g, calls[0]), calls[1..]);
    }
  }

  /** The ids come after the one `g` carries, in strictly increasing order. */
  predicate InOrder(g: Gen, ids: seq<int>) {
    && (forall i :: 0 <= i < |ids| ==> IdOf(g) < ids[i])
    && (forall i, j :: 0 <= i < j < |ids| ==> ids[i] < ids[j])
  }

  /**
   The bound on time is exact: up to the 42nd bit, the ids of a run are in order if and only if the
   elapsed time has stayed within 41 bits.
   */
  lemma OrderedIffWithin41Bits(g: Gen, calls: seq<Call>)
    requires Valid(g) && g.lastTime < TWO_TO_41 && Run(g, calls).lastTime < 2 * TWO_TO_41
    ensures InOrder(g, Ids(g, calls)) <==> Run(g, calls).lastTime < TWO_TO_41
  {
    var end := Run(g, calls);
    if end.lastTime < TWO_TO_41 {
      StrictlyIncreasing(g, calls);
    } else {
      RunAdvances(g, calls);
      LastIdIsTheStates(g, calls);
      LayoutIsSum(g.lastTime, g.node, g.sequence);
      LayoutIsSum(end.lastTime, end.node, end.sequence);
    }
  }

  /** The first id past 41 bits is negative, below every earlier one. */
  lemma {:induction false} OrderBreaksAt41Bits(g: Gen, c: Call)
    requires Valid(g) && g.lastTime < TWO_TO_41 <= c.now < 2 * TWO_TO_41
    ensures Succeeds(g, c) && IdOf(Step(g, c)) < 0 <= IdOf(g)
  {
    LayoutIsSum(g.lastTime, g.node, g.sequence);
    LayoutIsSum(c.now, g.node, 0);
  }
}
