/** The stage coordinator (Discover and pickBetter in internal/pattern/discovery.go). Three stages
    run concurrently, each with a cancellation token and a channel of capacity one; the coordinator
    reads them in priority order and cancels the stages it no longer needs. */
module Discovery {
  import opened Base

  /** A candidate pattern, reduced to what the coordinator looks at. */
  datatype Candidate = Candidate(family: nat, matched: nat, typed: nat, coverage: real, generic: bool)

  // The stages in priority order; index into every per-stage sequence.
  const STRUCTURED := 0
  const LIBRARY := 1
  const INFERRED := 2
  const STAGES := 3

  function PickBetter(a: Option<Candidate>, b: Option<Candidate>): Option<Candidate> {
    if a.None? then b
    else if b.None? then a
    else if b.value.matched != a.value.matched then (if b.value.matched > a.value.matched then b else a)
    else if b.value.typed != a.value.typed then (if b.value.typed > a.value.typed then b else a)
    else if b.value.family < a.value.family then b
    else a
  }

  predicate Tied(a: Candidate, b: Candidate) {
    a.matched == b.matched && a.typed == b.typed && a.family == b.family
  }

  /** Comparing candidates pairwise picks one winner from any number of them: the comparison is
      associative, and its order matters only between candidates tied on every key. */
  lemma PickBetterLaws(a: Option<Candidate>, b: Option<Candidate>, c: Option<Candidate>)
    ensures PickBetter(PickBetter(a, b), c) == PickBetter(a, PickBetter(b, c))
    ensures a.None? || b.None? || !Tied(a.value, b.value) ==> PickBetter(a, b) == PickBetter(b, a)
  {
  }

  /** x gives way to r: fewer lines matched, or as many and fewer typed captures, or as many and a family
      of lower priority, or the same in all three. */
  ghost predicate GivesWay(x: Candidate, r: Candidate) {
    && r.matched >= x.matched
    && (r.matched == x.matched ==>
          && r.typed >= x.typed
          && (r.typed == x.typed ==> r.family <= x.family))
  }

  /** The comparison over the fields: one of the two is picked, both give way to it, and between full ties
      the first stays. */
  lemma PickedInOrder(a: Option<Candidate>, b: Option<Candidate>)
    ensures var r := PickBetter(a, b);
            && (r == a || r == b) && (r.None? <==> a.None? && b.None?)
            && (a.Some? ==> GivesWay(a.value, r.value)) && (b.Some? ==> GivesWay(b.value, r.value))
            && (a.Some? && b.Some? && Tied(a.value, b.value) ==> r == a)
  {
  }

  predicate Covers(c: Option<Candidate>, threshold: real) { c.Some? && c.value.coverage >= threshold }

  /** A stage's own auto-accept rule: a structured candidate must name a field, a library candidate
      must not be a generic fallback and must name two. */
  predicate AutoAccept(stage: nat, c: Option<Candidate>, threshold: real) {
    Covers(c, threshold)
    && (stage == STRUCTURED ==> c.value.typed > 0)
    && (stage == LIBRARY ==> !c.value.generic && c.value.typed >= 2)
  }

  datatype StageResult = StageResult(candidate: Option<Candidate>, autoAccept: bool)

  /** A stage is scanning, with so many token reads still to come, or has sent its result.
      `tainted` records that a scan saw the token raised. */
  datatype Stage = Running(scans: nat, tainted: bool) | Sent

  datatype Pc =
    | AwaitStructured
    | AwaitLibrary(structured: StageResult)
    | AwaitInferred(structured: StageResult, library: StageResult)
    | AbortLibrary(answer: Candidate)
    | AbortInferred(answer: Candidate)
    | Returned(answer: Candidate)

  datatype State = State(stages: seq<Stage>, channels: seq<Option<StageResult>>, aborted: seq<bool>, pc: Pc)

  datatype Event = Scan(stage: nat) | Send(stage: nat, candidate: Option<Candidate>) | Coordinate

  /** One call: what each stage computes when left alone, the threshold, and the safe fallback. */
  datatype Call = Call(results: seq<Option<Candidate>>, threshold: real, fallback: Candidate) {

    ghost predicate Valid() { |results| == STAGES }

    function Message(stage: nat, c: Option<Candidate>): StageResult { StageResult(c, AutoAccept(stage, c, threshold)) }

    /** The answer as a function of the three results alone. */
    function Answer(): Candidate
      requires Valid()
    {
      var s, l, e := results[STRUCTURED], results[LIBRARY], results[INFERRED];
      if AutoAccept(STRUCTURED, s, threshold) then s.value
      else if AutoAccept(LIBRARY, l, threshold) then l.value
      else if Covers(s, threshold) then s.value
      else if Covers(l, threshold) then l.value
      else if Covers(e, threshold) then e.value
      else
        var best := PickBetter(PickBetter(PickBetter(None, s), l), e);
        if best.Some? && best.value.matched > 0 then best.value else fallback
    }

    /** The answer covers the threshold whenever any stage does; otherwise no stage matched more
        lines than it, unless nothing matched at all and the fallback stands in. */
    lemma AnswerIsBest(i: nat)
      requires Valid() && i < STAGES && results[i].Some?
      ensures Covers(results[i], threshold) ==> Answer().coverage >= threshold
      ensures (forall j :: 0 <= j < STAGES ==> !Covers(results[j], threshold)) && results[i].value.matched > 0 ==>
                Answer().matched >= results[i].value.matched && Some(Answer()) in results
    {
    }

    /** A stage found a candidate that reaches the threshold. */
    predicate Reaches(i: nat)
      requires Valid() && i < STAGES
    {
      results[i].Some? && results[i].value.coverage >= threshold
    }

    /** The order in which the stages are heard, over the fields of what they found: a structured candidate
        that names a field, a library candidate that is no generic fallback and names two, any structured
        candidate, any library candidate, any inferred one - each if it reaches the threshold. When none
        does, every candidate gives way to the answer, an earlier stage's staying on full ties, unless
        nothing matched at all. */
    lemma AnswerByPriority()
      requires Valid()
      ensures
        var s, l, e := results[STRUCTURED], results[LIBRARY], results[INFERRED];
        var typed := Reaches(STRUCTURED) && s.value.typed > 0;
        var specific := Reaches(LIBRARY) && !l.value.generic && l.value.typed >= 2;
        && (typed ==> Answer() == s.value)
        && (!typed && specific ==> Answer() == l.value)
        && (!specific && Reaches(STRUCTURED) ==> Answer() == s.value)
        && (!Reaches(STRUCTURED) && Reaches(LIBRARY) ==> Answer() == l.value)
        && (!Reaches(STRUCTURED) && !Reaches(LIBRARY) && Reaches(INFERRED) ==> Answer() == e.value)
      ensures (forall i :: 0 <= i < STAGES ==> !Reaches(i)) ==>
                if forall i :: 0 <= i < STAGES && results[i].Some? ==> results[i].value.matched == 0
                then Answer() == fallback
                else exists w :: 0 <= w < STAGES && results[w] == Some(Answer()) && Answer().matched > 0 && Foremost(w)
    {
      var s, l, e := results[STRUCTURED], results[LIBRARY], results[INFERRED];
      assert !Reaches(STRUCTURED) ==> !Covers(s, threshold);
      assert !Reaches(LIBRARY) ==> !Covers(l, threshold);
      assert !Reaches(INFERRED) ==> !Covers(e, threshold);
      if forall i :: 0 <= i < STAGES ==> !Reaches(i) {
        var sl := PickBetter(PickBetter(None, s), l);
        var best := PickBetter(sl, e);
        var w := if best.None? || best == s then STRUCTURED else if best == l then LIBRARY else INFERRED;
        assert best.Some? ==> results[w] == best && Foremost(w);
      }
    }

    /** Every stage's candidate gives way to stage w's, and no earlier one ties with it in full. */
    ghost predicate Foremost(w: nat)
      requires Valid() && w < STAGES
    {
      && results[w].Some?
      && (forall i :: 0 <= i < STAGES && results[i].Some? ==> GivesWay(results[i].value, results[w].value))
      && (forall i :: 0 <= i < w && results[i].Some? ==> !Tied(results[i].value, results[w].value))
    }

    function Init(scans: seq<nat>): State
      requires |scans| == STAGES
    {
      State(seq(STAGES, i requires 0 <= i < STAGES => Running(scans[i], false)),
            seq(STAGES, _ => None), seq(STAGES, _ => false), AwaitStructured)
    }

    ghost predicate Shape(s: State) { Valid() && |s.stages| == |s.channels| == |s.aborted| == STAGES }

    /** A stage sends when its scans are done, or early once one of them saw the token; unless it
        saw the token, it sends its true result. Sending needs room in the channel. */
    predicate Enabled(s: State, e: Event)
      requires Shape(s)
    {
      match e
      case Scan(i) => i < STAGES && s.stages[i].Running? && s.stages[i].scans > 0
      case Send(i, c) => i < STAGES && s.stages[i].Running? && s.channels[i].None?
                         && (s.stages[i].tainted || (s.stages[i].scans == 0 && c == results[i]))
      case Coordinate =>
        match s.pc
        case AwaitStructured => s.channels[STRUCTURED].Some?
        case AwaitLibrary(_) => s.channels[LIBRARY].Some?
        case AwaitInferred(_, _) => s.channels[INFERRED].Some?
        case AbortLibrary(_) => true
        case AbortInferred(_) => true
        case Returned(_) => false
    }

    function Step(s: State, e: Event): (t: State)
      requires Shape(s) && Enabled(s, e) && Known(s)
      ensures Shape(t)
    {
      match e
      case Scan(i) =>
        s.(stages := s.stages[i := Running(s.stages[i].scans - 1, s.stages[i].tainted || s.aborted[i])])
      case Send(i, c) => s.(stages := s.stages[i := Sent], channels := s.channels[i := Some(Message(i, c))])
      case Coordinate => Coordinator(s)
    }

    /** The coordinator's next step. */
    function Coordinator(s: State): (t: State)
      requires Shape(s) && Enabled(s, Coordinate) && Known(s)
      ensures Shape(t)
    {
      match s.pc
      case AwaitStructured =>
        var r := s.channels[STRUCTURED].value;
        s.(channels := s.channels[STRUCTURED := None],
           pc := if r.autoAccept then AbortLibrary(r.candidate.value) else AwaitLibrary(r))
      case AwaitLibrary(structured) =>
        var r := s.channels[LIBRARY].value;
        s.(channels := s.channels[LIBRARY := None],
           pc := if r.autoAccept then AbortInferred(r.candidate.value)
                 else if Covers(structured.candidate, threshold) then AbortInferred(structured.candidate.value)
                 else if Covers(r.candidate, threshold) then AbortInferred(r.candidate.value)
                 else AwaitInferred(structured, r))
      case AwaitInferred(structured, library) =>
        var r := s.channels[INFERRED].value;
        var best := PickBetter(PickBetter(PickBetter(None, structured.candidate), library.candidate), r.candidate);
        s.(channels := s.channels[INFERRED := None],
           pc := Returned(if r.autoAccept then r.candidate.value
                          else if best.Some? && best.value.matched > 0 then best.value else fallback))
      case AbortLibrary(answer) => s.(aborted := s.aborted[LIBRARY := true], pc := AbortInferred(answer))
      case AbortInferred(answer) => s.(aborted := s.aborted[INFERRED := true], pc := Returned(answer))
    }

    /** A message that claims auto-acceptance carries a candidate. */
    ghost predicate Known(s: State)
      requires Shape(s)
    {
      forall i :: 0 <= i < STAGES && s.channels[i].Some? ==>
        s.channels[i].value == Message(i, s.channels[i].value.candidate)
    }

    // Invariant.

    function True(stage: nat): StageResult
      requires Valid() && stage < STAGES
    {
      Message(stage, results[stage])
    }

    /** A stage's token is the only thing that can spoil its result; a running stage has an empty
        channel. */
    ghost predicate StageOk(s: State, i: nat)
      requires Shape(s) && i < STAGES
    {
      && (s.stages[i].Running? ==> s.channels[i].None? && (s.stages[i].tainted ==> s.aborted[i]))
      && (s.channels[i].Some? ==> s.aborted[i] || s.channels[i].value == True(i))
    }

    /** Until it has its answer the coordinator has raised no token, and all it has read is true;
        a stage it still waits for is running or has its result in the channel. */
    ghost predicate PcOk(s: State)
      requires Shape(s)
    {
      match s.pc
      case AwaitStructured => NoneAborted(s) && Pending(s, STRUCTURED) && Pending(s, LIBRARY) && Pending(s, INFERRED)
      case AwaitLibrary(r) =>
        NoneAborted(s) && r == True(STRUCTURED) && !r.autoAccept && Pending(s, LIBRARY) && Pending(s, INFERRED)
      case AwaitInferred(r, l) =>
        && NoneAborted(s) && r == True(STRUCTURED) && l == True(LIBRARY) && Pending(s, INFERRED)
        && !r.autoAccept && !l.autoAccept && !Covers(r.candidate, threshold) && !Covers(l.candidate, threshold)
      case AbortLibrary(answer) => answer == Answer()
      case AbortInferred(answer) => answer == Answer()
      case Returned(answer) => answer == Answer()
    }

    ghost predicate NoneAborted(s: State)
      requires Shape(s)
    {
      !s.aborted[STRUCTURED] && !s.aborted[LIBRARY] && !s.aborted[INFERRED]
    }

    ghost predicate Pending(s: State, i: nat)
      requires Shape(s) && i < STAGES
    {
      s.stages[i].Running? || s.channels[i].Some?
    }

    ghost predicate Inv(s: State) {
      && Shape(s) && Known(s) && PcOk(s)
      && StageOk(s, STRUCTURED) && StageOk(s, LIBRARY) && StageOk(s, INFERRED)
    }

    lemma StageStepOk(s: State, e: Event)
      requires Inv(s) && Enabled(s, e) && !e.Coordinate?
      ensures Inv(Step(s, e))
    {
    }

    lemma CoordinatorOk(s: State)
      requires Inv(s) && Enabled(s, Coordinate)
      ensures Inv(Step(s, Coordinate))
    {
    }

    /** Every step keeps the invariant. */
    lemma StepKeepsInv(s: State, e: Event)
      requires Inv(s) && Enabled(s, e)
      ensures Inv(Step(s, e))
    {
      if e.Coordinate? { CoordinatorOk(s); } else { StageStepOk(s, e); }
    }

    // Runs.

    ghost predicate Run(scans: seq<nat>, states: seq<State>, events: seq<Event>) {
      && Valid() && |scans| == STAGES && |states| == |events| + 1 && states[0] == Init(scans)
      && forall k :: 0 <= k < |events| ==> Taken(states, events, k)
    }

    ghost predicate Taken(states: seq<State>, events: seq<Event>, k: nat)
      requires |states| == |events| + 1 && k < |events|
    {
      && Shape(states[k]) && Enabled(states[k], events[k]) && Known(states[k])
      && states[k + 1] == Step(states[k], events[k])
    }

    lemma {:induction false} RunKeepsInv(scans: seq<nat>, states: seq<State>, events: seq<Event>, k: nat)
      requires Run(scans, states, events) && k < |states|
      ensures Inv(states[k])
    {
      if k > 0 {
        RunKeepsInv(scans, states, events, k - 1);
        assert Taken(states, events, k - 1);
        StepKeepsInv(states[k - 1], events[k - 1]);
      }
    }

    /** Discover is schedule-independent: whatever the interleaving of the stages, and however many
        token reads each makes, a returned answer is the one function of the un-aborted results. */
    lemma ScheduleIndependent(scans: seq<nat>, states: seq<State>, events: seq<Event>, k: nat)
      requires Run(scans, states, events) && k < |states| && states[k].pc.Returned?
      ensures states[k].pc.answer == Answer()
    {
      RunKeepsInv(scans, states, events, k);
    }

    /** The stage has sent its result and the coordinator has read it. */
    ghost predicate Done(s: State, i: nat)
      requires Shape(s) && i < STAGES
    {
      s.stages[i].Sent? && s.channels[i].None?
    }

    /** What the coordinator leaves behind it: every stage it is past is read, or was told to stop. */
    ghost predicate Swept(s: State)
      requires Shape(s)
    {
      match s.pc
      case AwaitStructured => true
      case AwaitLibrary(_) => Done(s, STRUCTURED)
      case AwaitInferred(_, _) => Done(s, STRUCTURED) && Done(s, LIBRARY)
      case AbortLibrary(_) => Done(s, STRUCTURED)
      case AbortInferred(_) => Done(s, STRUCTURED) && (Done(s, LIBRARY) || s.aborted[LIBRARY])
      case Returned(_) =>
        && Done(s, STRUCTURED) && (Done(s, LIBRARY) || s.aborted[LIBRARY])
        && (Done(s, INFERRED) || s.aborted[INFERRED])
    }

    lemma StepKeepsSwept(s: State, e: Event)
      requires Inv(s) && Enabled(s, e) && Swept(s)
      ensures Swept(Step(s, e))
    {
      assert StageOk(s, STRUCTURED) && StageOk(s, LIBRARY) && StageOk(s, INFERRED);
    }

    lemma {:induction false} RunKeepsSwept(scans: seq<nat>, states: seq<State>, events: seq<Event>, k: nat)
      requires Run(scans, states, events) && k < |states|
      ensures Shape(states[k]) && Swept(states[k])
    {
      RunKeepsInv(scans, states, events, k);
      if k > 0 {
        RunKeepsSwept(scans, states, events, k - 1);
        RunKeepsInv(scans, states, events, k - 1);
        assert Taken(states, events, k - 1);
        StepKeepsSwept(states[k - 1], events[k - 1]);
      }
    }

    /** When Discover returns no stage is left scanning untold: each was read, or has its token raised. */
    lemma NoneLeftScanning(scans: seq<nat>, states: seq<State>, events: seq<Event>, k: nat, i: nat)
      requires Run(scans, states, events) && k < |states| && states[k].pc.Returned? && i < STAGES
      ensures Shape(states[k]) && (states[k].stages[i].Running? ==> states[k].aborted[i])
      ensures states[k].channels[i].Some? ==> states[k].aborted[i]
    {
      RunKeepsSwept(scans, states, events, k);
    }

    /** The stage the coordinator is about to read from. */
    function Awaited(pc: Pc): Option<nat> {
      match pc
      case AwaitStructured => Some(STRUCTURED)
      case AwaitLibrary(_) => Some(LIBRARY)
      case AwaitInferred(_, _) => Some(INFERRED)
      case _ => None
    }

    /** No result computed under a raised token is ever read, and no stage finds its channel full. */
    lemma ReadsAreTrue(scans: seq<nat>, states: seq<State>, events: seq<Event>, k: nat)
      requires Run(scans, states, events) && k < |events| && events[k].Coordinate? && Awaited(states[k].pc).Some?
      ensures var i := Awaited(states[k].pc).value;
              Shape(states[k]) && !states[k].aborted[i] && states[k].channels[i] == Some(True(i))
    {
      RunKeepsInv(scans, states, events, k);
      assert Taken(states, events, k);
    }

    lemma SendsNeverBlock(scans: seq<nat>, states: seq<State>, events: seq<Event>, k: nat, i: nat)
      requires Run(scans, states, events) && k < |states| && i < STAGES
      ensures Shape(states[k]) && (states[k].stages[i].Running? ==> states[k].channels[i].None?)
    {
      RunKeepsInv(scans, states, events, k);
      assert StageOk(states[k], i);
    }

    /** Until it returns, something can always happen. */
    lemma Progress(scans: seq<nat>, states: seq<State>, events: seq<Event>, k: nat) returns (e: Event)
      requires Run(scans, states, events) && k < |states| && !states[k].pc.Returned?
      ensures Shape(states[k]) && Enabled(states[k], e)
    {
      RunKeepsInv(scans, states, events, k);
      var i := Awaited(states[k].pc);
      if i.Some? && states[k].channels[i.value].None? {
        e := if states[k].stages[i.value].scans > 0 then Scan(i.value) else Send(i.value, results[i.value]);
      } else {
        e := Coordinate;
      }
    }

    /** Steps left: token reads, sends and the coordinator's own moves. */
    function Work(s: State): nat
      requires |s.stages| == STAGES
    {
      StageWork(s.stages[STRUCTURED]) + StageWork(s.stages[LIBRARY]) + StageWork(s.stages[INFERRED]) + PcWork(s.pc)
    }

    function StageWork(st: Stage): nat { if st.Running? then st.scans + 1 else 0 }

    function PcWork(pc: Pc): nat {
      match pc
      case AwaitStructured => 5
      case AwaitLibrary(_) => 4
      case AwaitInferred(_, _) => 3
      case AbortLibrary(_) => 2
      case AbortInferred(_) => 1
      case Returned(_) => 0
    }

    /** Every step uses some of it up, so a run cannot outlast Work(Init): with Progress, every
        maximal run returns. */
    lemma {:induction false} RunIsBounded(scans: seq<nat>, states: seq<State>, events: seq<Event>, k: nat)
      requires Run(scans, states, events) && k < |states|
      ensures |states[k].stages| == STAGES && k + Work(states[k]) <= Work(states[0])
    {
      RunKeepsInv(scans, states, events, k);
      if k > 0 {
        RunIsBounded(scans, states, events, k - 1);
        assert Taken(states, events, k - 1);
        StepUsesWork(states[k - 1], events[k - 1]);
      }
    }

    lemma StepUsesWork(s: State, e: Event)
      requires Shape(s) && Enabled(s, e) && Known(s)
      ensures Work(Step(s, e)) < Work(s)
    {
    }
  }
}
