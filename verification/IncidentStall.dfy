/** A stalled writer: thirty-four revisions of storms that come and go, two of them lost, and the gap that follows. */
module IncidentStall {
  import opened Common
  import opened EvidenceText
  import opened Evidence
  import opened Incident
  import opened IncidentRuns
  import opened IncidentCapture
  import opened IncidentQueue
  import opened Store
  import Detection
  import Retention
  import StoreRuns
  import StoreFaults

  /** Storm, cooldown, normal, and again. */
  function StateAt(k: nat): Detection.State {
    if k % 3 == 0 then Detection.Normal
    else if k % 3 == 1 then Detection.IngressStormConfirmed else Detection.Cooldown
  }

  function ReasonAt(k: nat): Detection.Reason {
    if k % 3 == 0 then Detection.CooldownCompleted
    else if k % 3 == 1 then Detection.StormAsserted else Detection.EvidenceCleared
  }

  function CodeAt(k: nat): AlertCode {
    if k % 3 == 0 then IncidentClosed else if k % 3 == 1 then StormConfirmed else IncidentCooldown
  }

  function EventAt(k: nat): EventId
    requires k < 100
  {
    StoreFaults.IdOf(k / 3)
  }

  /** Transition `k + 1`, from state `k` to state `k + 1`. */
  function OpAt(i: IncidentIdentity, k: nat): RecorderOp
    requires k < 100
  {
    RecordOp(Detection.Transition(k + 1, StateAt(k), StateAt(k + 1), ReasonAt(k + 1), 0),
             Snapshot(i, Detection.WarmingReport(0)), if k % 3 == 0 then Some(EventAt(k)) else None)
  }

  function RecorderAt(i: IncidentIdentity, k: nat): Recorder
    requires k < 100
  {
    Recorder(i, if k % 3 == 0 then None else Some(Active(EventAt(k), k % 3, 0, StateAt(k))), k, 0)
  }

  function RevisionAt(i: IncidentIdentity, k: nat): Revision
    requires k < 100
  {
    Revision(EventAt(k), k % 3 + 1, i.interface, i.ifindex, i.generation, k + 1, StateAt(k), StateAt(k + 1),
             ReasonAt(k + 1), 0, 0, if k % 3 == 2 then Some(0) else None, CodeAt(k + 1), SeverityOf(CodeAt(k + 1)),
             Detection.WarmingReport(0))
  }

  predicate Usual(i: IncidentIdentity) { i.ifindex != 0 && i.generation != 0 }

  lemma RevisionIsValid(i: IncidentIdentity, k: nat)
    requires Usual(i) && k < 99
    ensures ValidRevision(RevisionAt(i, k))
  {
    StoreFaults.FirstRevisionBuilds(EventAt(k));
    assert Detection.ValidReport(Detection.WarmingReport(0));
  }

  lemma Emits(i: IncidentIdentity, k: nat)
    requires Usual(i) && k < 99
    ensures Perform(RecorderAt(i, k), OpAt(i, k)) == Recorded(RecorderAt(i, k + 1), Ok(Some(RevisionAt(i, k))))
  {
    RevisionIsValid(i, k);
    assert k % 3 != 2 ==> (k + 1) / 3 == k / 3 && (k + 1) % 3 == k % 3 + 1;
    assert k % 3 == 2 ==> (k + 1) % 3 == 0;
  }

  function LogAt(i: IncidentIdentity, n: nat): (log: seq<Revision>)
    requires n < 100
    ensures |log| == n && forall k :: 0 <= k < n ==> log[k] == RevisionAt(i, k)
  {
    if n == 0 then [] else LogAt(i, n - 1) + [RevisionAt(i, n - 1)]
  }

  lemma {:induction false} AbsentHasNoLast(log: seq<Revision>, id: EventId)
    requires forall k :: 0 <= k < |log| ==> log[k].eventId != id
    ensures Last(log, id) == None
  {
    if log != [] {
      AbsentHasNoLast(log[..|log| - 1], id);
    }
  }

  lemma IsFresh(i: IncidentIdentity, n: nat)
    requires n < 100
    ensures FreshId(OpAt(i, n), LogAt(i, n))
  {
    if n % 3 == 0 {
      forall k | 0 <= k < n
        ensures LogAt(i, n)[k].eventId != EventAt(n)
      {
        StoreFaults.IdsAscend(k / 3, n / 3);
      }
      AbsentHasNoLast(LogAt(i, n), EventAt(n));
    }
  }

  // -------------------------------------------------------------- the line while it stalls

  function Upto(a: nat, b: nat): seq<nat>
    requires a <= b
  {
    seq(b - a, k requires 0 <= k < b - a => a + k)
  }

  /** The positions from 32 up to `n`. */
  function Overflow(n: nat): set<nat> { if n <= 32 then {} else Overflow(n - 1) + {n - 1} }

  const NOTHING := Store(map[], map[], true, 0, 0)

  /** After `n` ticks with a writer that does nothing: the channel is full and the rest is lost. */
  function StalledAt(i: IncidentIdentity, n: nat): Line
    requires n < 100
  {
    Line(RecorderAt(i, n), LogAt(i, n), [], Upto(0, Min(n, 32)), Overflow(n), NOTHING)
  }

  lemma EmitsOne(i: IncidentIdentity, n: nat, l: Line)
    requires Usual(i) && n < 99 && l.recorder == RecorderAt(i, n) && l.log == LogAt(i, n) && l.pending == []
    ensures Can(l, Emission(OpAt(i, n)))
    ensures Step(l, Emission(OpAt(i, n)))
            == l.(recorder := RecorderAt(i, n + 1), log := LogAt(i, n + 1), pending := [n])
  {
    Emits(i, n);
    IsFresh(i, n);
  }

  lemma FlushesOne(l: Line, p: nat)
    requires l.pending == [p] && |l.channel| <= 32
    ensures Step(l, Flush) ==
            if |l.channel| < 32 then l.(pending := [], channel := l.channel + [p])
            else l.(pending := [], missing := l.missing + {p})
  {
    EnqueueKeepsFirst(l.channel, [p]);
    assert [p][..1] == [p] && [p][..0] == [] && [p][0..] == [p] && [p][1..] == [];
    assert Members([p]) == {p} && Members([]) == {};
  }

  lemma Grown(i: IncidentIdentity, n: nat, mid: Line)
    requires n < 99
    requires mid == Line(RecorderAt(i, n + 1), LogAt(i, n + 1), [n], Upto(0, Min(n, 32)), Overflow(n), NOTHING)
    ensures Step(mid, Flush) == StalledAt(i, n + 1)
  {
    FlushesOne(mid, n);
    if n < 32 {
      assert Upto(0, n + 1) == Upto(0, n) + [n];
    }
  }

  lemma Tick(i: IncidentIdentity, n: nat) returns (mid: Line)
    requires Usual(i) && n < 99
    ensures Can(StalledAt(i, n), Emission(OpAt(i, n))) && Step(StalledAt(i, n), Emission(OpAt(i, n))) == mid
    ensures Step(mid, Flush) == StalledAt(i, n + 1)
  {
    mid := Line(RecorderAt(i, n + 1), LogAt(i, n + 1), [n], Upto(0, Min(n, 32)), Overflow(n), NOTHING);
    EmitsOne(i, n, StalledAt(i, n));
    Grown(i, n, mid);
  }

  lemma {:induction false} WorkExtends(lines: seq<Line>, ops: seq<LineOp>, op: LineOp)
    requires Works(lines, ops) && Can(lines[|ops|], op)
    ensures Works(lines + [Step(lines[|ops|], op)], ops + [op])
  {
    var more, all := lines + [Step(lines[|ops|], op)], ops + [op];
    forall k: nat | k < |all|
      ensures Steps(more, all, k)
    {
      assert k < |ops| ==> Steps(lines, ops, k);
    }
  }

  /** A run of the line from the empty one. */
  ghost predicate Leads(i: IncidentIdentity, lines: seq<Line>, ops: seq<LineOp>, to: Line) {
    Works(lines, ops) && lines[0] == EmptyLine(i) && lines[|ops|] == to
  }

  lemma Next(i: IncidentIdentity, lines: seq<Line>, ops: seq<LineOp>, l: Line, op: LineOp)
      returns (more: seq<Line>, all: seq<LineOp>)
    requires Leads(i, lines, ops, l) && Can(l, op)
    ensures Leads(i, more, all, Step(l, op))
  {
    WorkExtends(lines, ops, op);
    more, all := lines + [Step(l, op)], ops + [op];
  }

  lemma TwoMore(i: IncidentIdentity, lines: seq<Line>, ops: seq<LineOp>, l: Line, op: LineOp, mid: Line, to: Line)
      returns (more: seq<Line>, all: seq<LineOp>)
    requires Leads(i, lines, ops, l) && Can(l, op) && mid == Step(l, op) && to == Step(mid, Flush)
    ensures Leads(i, more, all, to)
  {
    more, all := Next(i, lines, ops, l, op);
    more, all := Next(i, more, all, mid, Flush);
  }

  lemma TickOn(i: IncidentIdentity, lines: seq<Line>, ops: seq<LineOp>, n: nat)
      returns (more: seq<Line>, all: seq<LineOp>)
    requires Usual(i) && n < 99 && Leads(i, lines, ops, StalledAt(i, n))
    ensures Leads(i, more, all, StalledAt(i, n + 1))
  {
    var mid := Tick(i, n);
    more, all := TwoMore(i, lines, ops, StalledAt(i, n), Emission(OpAt(i, n)), mid, StalledAt(i, n + 1));
  }

  lemma Starts(i: IncidentIdentity, l: Line, n: nat)
    requires n == 0 && l == StalledAt(i, n)
    ensures l == EmptyLine(i) && Leads(i, [l], [], l)
  {
  }

  lemma {:induction false} Ticks(i: IncidentIdentity, n: nat) returns (lines: seq<Line>, ops: seq<LineOp>)
    requires Usual(i) && n < 100
    ensures Leads(i, lines, ops, StalledAt(i, n))
  {
    if n == 0 {
      Starts(i, StalledAt(i, n), n);
      return [StalledAt(i, n)], [];
    }
    lines, ops := Ticks(i, n - 1);
    lines, ops := TickOn(i, lines, ops, n - 1);
  }

  // -------------------------------------------------------------- the writer goes on

  /** A write while the free space cannot be told. */
  const BLIND := Write(StoreFaults.SIZES, [], 0, None)

  lemma NothingIsQueued()
    ensures Retention.IsQueue(NOTHING.index, [])
  {
  }

  /** A blind write loses the first revision in the channel. */
  lemma BlindWrite(l: Line)
    requires l.store == NOTHING && l.channel != [] && l.channel[0] < |l.log|
    ensures Can(l, BLIND)
    ensures Step(l, BLIND) == l.(channel := l.channel[1..], missing := l.missing + {l.channel[0]})
  {
    NothingIsQueued();
    StoreFaults.FirstRevisionBuilds(StoreFaults.LAST);
  }

  lemma {:induction false} BlindWrites(i: IncidentIdentity, lines: seq<Line>, ops: seq<LineOp>, l: Line, n: nat)
      returns (more: seq<Line>, all: seq<LineOp>, to: Line)
    requires Leads(i, lines, ops, l) && l.store == NOTHING && n <= |l.channel|
    requires forall k :: 0 <= k < |l.channel| ==> l.channel[k] < |l.log|
    ensures Leads(i, more, all, to) && to.store == NOTHING && to.recorder == l.recorder
    ensures to.log == l.log && to.pending == l.pending
    ensures to.channel == l.channel[n..] && l.missing <= to.missing
    decreases n
  {
    if n == 0 {
      more, all, to := lines, ops, l;
    } else {
      BlindWrite(l);
      more, all := Next(i, lines, ops, l, BLIND);
      more, all, to := BlindWrites(i, more, all, Step(l, BLIND), n - 1);
      assert l.channel[1..][n - 1..] == l.channel[n..];
    }
  }

  lemma OneMoreTick(i: IncidentIdentity, l: Line)
    requires Usual(i) && l.recorder == RecorderAt(i, 34) && l.log == LogAt(i, 34)
    requires l.pending == [] && |l.channel| == 31
    ensures Can(l, Emission(OpAt(i, 34)))
    ensures var after := Step(Step(l, Emission(OpAt(i, 34))), Flush);
            && after.channel == l.channel + [34] && after.log == LogAt(i, 35) && after.store == l.store
            && after.pending == [] && after.missing == l.missing
  {
    EmitsOne(i, 34, l);
    FlushesOne(Step(l, Emission(OpAt(i, 34))), 34);
  }

  const ROOM: Retention.Space := Retention.Space(0x1_0000_0000, 0x1_0000_0000)

  lemma RoomIsEnough()
    ensures Retention.IsQueue(NOTHING.index, [])
    ensures Retain(NOTHING, [], 0, MAX_REVISION_BYTES, Some(ROOM), Retention.NoFault)
            == Kept(NOTHING, Ok(Retained([], ROOM.available)))
  {
    NothingIsQueued();
    var need := Retention.Need(0, MAX_REVISION_BYTES, ROOM.available, Retention.MinimumFreeReserve(ROOM.total), 0, 0);
    assert Retention.Walk(need, [], NOTHING.disk, Retention.NoFault, 0) == Retention.Finished(0);
    assert NOTHING.index - Retention.Ids([], 0) == NOTHING.index && NOTHING.disk - Retention.Ids([], 0) == NOTHING.disk;
  }

  /**
   * Thirty-four ticks against a stalled writer fill the channel and lose two revisions, the second of them the first
   * one of a new event. Once the writer has worked off the channel, the second revision of that event is a gap.
   */
  lemma StallMakesAGap(i: IncidentIdentity) returns (lines: seq<Line>, ops: seq<LineOp>)
    requires Usual(i)
    ensures Works(lines, ops) && lines[0] == EmptyLine(i)
    ensures var l := lines[|ops|];
            && l.channel == [34] && 33 in l.missing && l.log == LogAt(i, 35) && l.store == NOTHING
            && Retain(l.store, [], 0, MAX_REVISION_BYTES, Some(ROOM), Retention.NoFault).result.Ok?
            && Put(l.store, l.log[34], StoreFaults.SIZES, Smooth).result == Err(RevisionSequence)
  {
    lines, ops := Ticks(i, 34);
    var l := StalledAt(i, 34);
    var full: Line;
    lines, ops, full := BlindWrites(i, lines, ops, l, 1);
    OneMoreTick(i, full);
    var emitted := Step(full, Emission(OpAt(i, 34)));
    var flushed := Step(emitted, Flush);
    lines, ops := TwoMore(i, lines, ops, full, Emission(OpAt(i, 34)), emitted, flushed);
    var last: Line;
    lines, ops, last := BlindWrites(i, lines, ops, flushed, 31);
    RoomIsEnough();
    GapIffLost(i, lines, ops, |ops|, StoreFaults.SIZES, [], 0, Some(ROOM));
  }
}
