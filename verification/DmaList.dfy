/**
 The receive DMA list of the ESP32-C3/S3: a chain of descriptors which software edits while the
 DMA engine is filling it. A pointer to a descriptor is its index in the slab.

 Around every access software makes to shared memory or to an engine register stands
 `HardwareRuns`, an arbitrary number of engine steps. What is proved about the operations
 therefore holds for every interleaving with the hardware.
 */
module RxDma {
  import opened Wrappers

  type Frame = seq<bv8>

  datatype Owner = Cpu | Dma

  // `frame` is what is in the buffer up to the length in the descriptor.
  datatype Descriptor = Descriptor(next: Option<nat>, sucEof: bool, owner: Owner, frame: Frame) {
    function ResetForRx(): (d: Descriptor) {
      this.(owner := Dma, sucEof := false, frame := [])
    }
  }

  type Slab = seq<Descriptor>

  // The link the engine has read out of the descriptor it is filling, if it read it already.
  datatype Prefetch = NotFetched | Fetched(link: Option<nat>)

  // The receive half of the DMA engine. The NEXT register holds the descriptor being filled or
  // about to be filled, nothing when the engine is idle.
  datatype Engine = Engine(next: Option<nat>, prefetch: Prefetch)

  // Writing the base register reloads the engine; an empty base stops it.
  function Reload(base: Option<nat>): (e: Engine) {
    Engine(base, NotFetched)
  }

  datatype Ends = Ends(first: nat, last: nat)

  // What the engine hands over on completion: the descriptor and the frame it holds.
  type Completion = (nat, Frame)

  // Where the descriptors are: linked into the live chain, of which a prefix is done, or lent to the
  // caller. And the history: all completions since the list was last cleared, with those already taken
  // out, and what the engine has written to each descriptor since it was last made empty.
  datatype View = View(chain: seq<nat>, lent: set<nat>, done: nat,
                       completed: seq<Completion>, delivered: seq<Completion>, written: seq<Frame>)

  // What software and hardware share, and its history.
  datatype Shared = Shared(slab: Slab, engine: Engine, v: View)

  // The chain holds distinct descriptors, which follow each other. The tail is linked to `end`.
  ghost predicate Linked(slab: Slab, chain: seq<nat>, end: Option<nat>) {
    && (forall i :: 0 <= i < |chain| ==> chain[i] < |slab| && slab[chain[i]].owner == Dma)
    && (forall i, j :: 0 <= i < j < |chain| ==> chain[i] != chain[j])
    && (forall i :: 0 <= i < |chain| - 1 ==> slab[chain[i]].next == Some(chain[i + 1]))
    && (0 < |chain| ==> slab[chain[|chain| - 1]].next == end)
  }

  // The chain is a prefix of completed descriptors followed by empty ones.
  ghost predicate Filled(slab: Slab, chain: seq<nat>, done: nat)
    requires forall i :: 0 <= i < |chain| ==> chain[i] < |slab|
  {
    && done <= |chain|
    && (forall i :: 0 <= i < |chain| ==> slab[chain[i]].sucEof == (i < done))
  }

  // The engine is idle or at the first empty descriptor, and knows no link but the one behind it.
  ghost predicate Aimed(engine: Engine, chain: seq<nat>, done: nat) {
    && (engine.next.Some? ==> done < |chain| && engine.next.value == chain[done])
    && (engine.next == None ==> engine.prefetch == NotFetched)
    && (engine.prefetch.Fetched? && engine.prefetch.link.Some? ==>
          done + 1 < |chain| && engine.prefetch.link.value == chain[done + 1])
  }

  // Completions come out in the order they went in, unchanged, and none is lost or duplicated.
  ghost predicate InOrder(slab: Slab, v: View)
    requires v.done <= |v.chain| && forall i :: 0 <= i < |v.chain| ==> v.chain[i] < |slab|
  {
    && |v.completed| == |v.delivered| + v.done
    && v.completed[..|v.delivered|] == v.delivered
    && forall i :: 0 <= i < v.done ==> v.completed[|v.delivered| + i] == (v.chain[i], slab[v.chain[i]].frame)
  }

  // A descriptor that is not completed yet holds what was written to it since it was made empty, and
  // nothing of what it held before.
  ghost predicate Holds(slab: Slab, v: View)
    requires forall i :: 0 <= i < |v.chain| ==> v.chain[i] < |slab|
  {
    && |v.written| == |slab|
    && forall i :: v.done <= i < |v.chain| ==> slab[v.chain[i]].frame == v.written[v.chain[i]]
  }

  // What holds between any two accesses, whoever makes them.
  ghost predicate EngineInv(s: Shared, end: Option<nat>) {
    && Linked(s.slab, s.v.chain, end)
    && Filled(s.slab, s.v.chain, s.v.done)
    && Aimed(s.engine, s.v.chain, s.v.done)
    && InOrder(s.slab, s.v)
    && Holds(s.slab, s.v)
    && (forall a :: a in s.v.lent ==> a < |s.slab| && a !in s.v.chain)
  }

  // Software's pointers to the two ends of the chain are up to date.
  ghost predicate EndsInv(ends: Option<Ends>, chain: seq<nat>) {
    && (ends == None <==> chain == [])
    && (ends.Some? && chain != [] ==> ends.value == Ends(chain[0], chain[|chain| - 1]))
  }

  // Every descriptor is linked or lent, and a lent one has no link into the chain.
  ghost predicate LentInv(slab: Slab, v: View) {
    && (forall a :: 0 <= a < |slab| ==> a in v.chain || a in v.lent)
    && (forall a :: a in v.lent ==> a < |slab| && slab[a].next == None && slab[a].owner == Cpu)
  }

  // The engine has stopped although an empty descriptor is linked.
  ghost predicate Stalled(s: Shared) {
    s.engine.next == None && s.v.done < |s.v.chain|
  }

  // The steps of the engine: write data, read the link ahead, or complete the descriptor.
  datatype EngineStep = Write(data: Frame) | ReadAhead | Complete

  function Step(s: Shared, step: EngineStep): (s': Shared)
    requires s.engine.next.Some? ==> s.engine.next.value < |s.slab| == |s.v.written|
  {
    if s.engine.next == None then s else
    var a := s.engine.next.value;
    var d := s.slab[a];
    match step
    case Write(data) =>
      s.(slab := s.slab[a := d.(frame := d.frame + data)],
         v := s.v.(written := s.v.written[a := s.v.written[a] + data]))
    case ReadAhead => s.(engine := s.engine.(prefetch := Fetched(d.next)))
    case Complete =>
      Shared(s.slab[a := d.(sucEof := true)],
             Reload(if s.engine.prefetch.Fetched? then s.engine.prefetch.link else d.next),
             s.v.(done := s.v.done + 1, completed := s.v.completed + [(a, s.v.written[a])]))
  }

  // Descriptors may have been completed; no link was changed, and nothing about lent descriptors.
  ghost predicate Grew(s: Shared, s': Shared) {
    && s.v.done <= s'.v.done && s.v.completed <= s'.v.completed
    && s'.v == s.v.(done := s'.v.done, completed := s'.v.completed, written := s'.v.written)
    && |s.slab| == |s'.slab|
    && (forall a :: a in s.v.lent && a < |s.slab| ==> s'.slab[a] == s.slab[a])
  }

  // That, by the engine alone: an idle one does nothing, and one that stopped has completed something.
  ghost predicate Evolved(s: Shared, s': Shared) {
    && Grew(s, s')
    && (s.engine.next == None ==> s' == s)
    && (s.engine.next.Some? && s'.engine.next == None ==> s.v.done < s'.v.done)
  }

  // Only links and owners matter to how the chain is linked.
  lemma UpdateKeepsLinked(slab: Slab, chain: seq<nat>, end: Option<nat>, a: nat, d: Descriptor)
    requires Linked(slab, chain, end) && a < |slab|
    requires d.next == slab[a].next && d.owner == slab[a].owner
    ensures Linked(slab[a := d], chain, end)
  {
  }

  lemma WriteKeepsInv(s: Shared, data: Frame)
    requires EngineInv(s, None) && s.engine.next.Some?
    ensures EngineInv(Step(s, Write(data)), None) && Evolved(s, Step(s, Write(data)))
  {
    hide Linked;
    var a := s.engine.next.value;
    LinkedBounds(s.slab, s.v.chain, None);
    UpdateKeepsLinked(s.slab, s.v.chain, None, a, s.slab[a].(frame := s.slab[a].frame + data));
  }

  lemma CompleteKeepsInv(s: Shared)
    requires EngineInv(s, None) && s.engine.next.Some?
    ensures EngineInv(Step(s, Complete), None) && Evolved(s, Step(s, Complete))
  {
    hide Linked, InOrder;
    var a := s.engine.next.value;
    LinkedBounds(s.slab, s.v.chain, None);
    UpdateKeepsLinked(s.slab, s.v.chain, None, a, s.slab[a].(sucEof := true));
    LinkedLink(s.slab, s.v.chain, s.v.done);
    CompletesInOrder(s.slab, s.v, s.slab[a].(sucEof := true));
  }

  lemma LinkedBounds(slab: Slab, chain: seq<nat>, end: Option<nat>)
    requires Linked(slab, chain, end)
    ensures forall i :: 0 <= i < |chain| ==> chain[i] < |slab|
    ensures forall i, j :: 0 <= i < j < |chain| ==> chain[i] != chain[j]
  {
  }

  lemma LinkedLink(slab: Slab, chain: seq<nat>, k: nat)
    requires Linked(slab, chain, None) && k < |chain|
    ensures slab[chain[k]].next == if k + 1 < |chain| then Some(chain[k + 1]) else None
  {
  }

  // The first empty descriptor becomes the last completed one.
  lemma CompletesInOrder(slab: Slab, v: View, d: Descriptor)
    requires v.done < |v.chain| && (forall i :: 0 <= i < |v.chain| ==> v.chain[i] < |slab|) && InOrder(slab, v)
    requires forall i, j :: 0 <= i < j < |v.chain| ==> v.chain[i] != v.chain[j]
    requires d.frame == slab[v.chain[v.done]].frame
    ensures InOrder(slab[v.chain[v.done] := d],
                    v.(done := v.done + 1, completed := v.completed + [(v.chain[v.done], d.frame)]))
  {
  }

  /** No step of the engine disturbs the list, whatever it writes and whenever it reads ahead. */
  lemma StepKeepsInv(s: Shared, step: EngineStep)
    requires EngineInv(s, None)
    ensures EngineInv(Step(s, step), None) && Evolved(s, Step(s, step))
  {
    if s.engine.next.Some? {
      match step
      case Write(data) => WriteKeepsInv(s, data);
      case ReadAhead =>
      case Complete => CompleteKeepsInv(s);
    }
  }

  function Steps(s: Shared, steps: seq<EngineStep>): (s': Shared)
    requires EngineInv(s, None)
    ensures EngineInv(s', None)
    decreases |steps|
  {
    if steps == [] then s else
    StepKeepsInv(s, steps[0]);
    Steps(Step(s, steps[0]), steps[1..])
  }

  // All that is written by the steps.
  function Data(steps: seq<EngineStep>): (data: Frame)
    decreases |steps|
  {
    if steps == [] then [] else (if steps[0].Write? then steps[0].data else []) + Data(steps[1..])
  }

  lemma EngineAt(s: Shared)
    requires EngineInv(s, None) && s.engine.next.Some?
    ensures var a := s.engine.next.value; a < |s.slab| == |s.v.written| && s.slab[a].frame == s.v.written[a]
  {
  }

  lemma {:induction false} StepsWrite(s: Shared, steps: seq<EngineStep>)
    requires EngineInv(s, None) && s.engine.next.Some? && forall i :: 0 <= i < |steps| ==> !steps[i].Complete?
    ensures var a, s' := s.engine.next.value, Steps(s, steps);
      s'.engine.next == Some(a) && s'.v == s.v.(written := s.v.written[a := s.v.written[a] + Data(steps)])
    decreases |steps|
  {
    hide EngineInv, Step;
    EngineAt(s);
    var a, w := s.engine.next.value, s.v.written;
    if steps == [] {
      assert w[a] + [] == w[a] && w[a := w[a]] == w;
    } else {
      var d := if steps[0].Write? then steps[0].data else [];
      StepKeepsInv(s, steps[0]);
      StepWrites(s, steps[0]);
      StepsWrite(Step(s, steps[0]), steps[1..]);
      assert (w[a] + d) + Data(steps[1..]) == w[a] + Data(steps);
      assert w[a := w[a] + d][a := w[a] + Data(steps)] == w[a := w[a] + Data(steps)];
    }
  }

  lemma StepWrites(s: Shared, step: EngineStep)
    requires EngineInv(s, None) && s.engine.next.Some? && !step.Complete?
    ensures var a, d, s' := s.engine.next.value, if step.Write? then step.data else [], Step(s, step);
      && a < |s.v.written| && s'.engine.next == Some(a)
      && s'.v == s.v.(written := s.v.written[a := s.v.written[a] + d])
  {
    hide EngineInv;
    EngineAt(s);
    var a, w := s.engine.next.value, s.v.written;
    assert w[a] + [] == w[a] && w[a := w[a]] == w;
  }

  /**
   However often the engine writes and reads ahead before it completes a descriptor that was made empty,
   the frame that is completed is all it has written, and it is in memory.
   */
  lemma CompletesWhatIsWritten(s: Shared, steps: seq<EngineStep>)
    requires EngineInv(s, None) && s.engine.next.Some? && forall i :: 0 <= i < |steps| ==> !steps[i].Complete?
    requires s.engine.next.value < |s.v.written| && s.v.written[s.engine.next.value] == []
    ensures var a, s' := s.engine.next.value, Step(Steps(s, steps), Complete);
      && s'.v.completed == s.v.completed + [(a, Data(steps))]
      && a < |s'.slab| && s'.slab[a].frame == Data(steps) && s'.slab[a].sucEof
  {
    hide EngineInv;
    EngineAt(s);
    StepsWrite(s, steps);
    EngineAt(Steps(s, steps));
    assert [] + Data(steps) == Data(steps);
  }

  // Account for the completed head having left the chain.
  ghost function Detach(s: Shared): (s': Shared)
    requires s.v.chain != [] && s.v.chain[0] < |s.slab| && 0 < s.v.done
  {
    var first, v := s.v.chain[0], s.v;
    s.(v := View(v.chain[1..], v.lent + {first}, v.done - 1, v.completed, v.delivered + [(first, s.slab[first].frame)],
                 v.written))
  }

  lemma DetachKeepsInv(s: Shared)
    requires EngineInv(s, None) && 0 < s.v.done
    ensures EngineInv(Detach(s), None)
  {
    hide Linked, InOrder;
    LinkedBounds(s.slab, s.v.chain, None);
    TailIsLinked(s.slab, s.v.chain);
    DetachedInOrder(s);
    assert forall i :: 0 <= i < |Detach(s).v.chain| ==> Detach(s).v.chain[i] == s.v.chain[i + 1];
  }

  lemma TailIsLinked(slab: Slab, chain: seq<nat>)
    requires Linked(slab, chain, None) && chain != []
    ensures Linked(slab, chain[1..], None)
  {
  }

  lemma DetachedInOrder(s: Shared)
    requires 0 < s.v.done <= |s.v.chain| && forall i :: 0 <= i < |s.v.chain| ==> s.v.chain[i] < |s.slab|
    requires InOrder(s.slab, s.v)
    ensures InOrder(s.slab, Detach(s).v)
  {
    var v, v' := s.v, Detach(s).v;
    assert v.completed[..|v'.delivered|] == v'.delivered;
  }

  // Ready for the next frame.
  predicate IsEmpty(d: Descriptor) {
    !d.sucEof && d.owner == Dma && d.frame == []
  }

  // Account for an empty descriptor having been linked behind the tail.
  ghost function Attach(s: Shared, descriptor: nat): (s': Shared)
    requires descriptor < |s.v.written|
  {
    s.(v := s.v.(chain := s.v.chain + [descriptor], lent := s.v.lent - {descriptor},
                 written := s.v.written[descriptor := []]))
  }

  lemma AttachKeepsInv(s: Shared, descriptor: nat)
    requires EngineInv(s, if s.v.chain == [] then None else Some(descriptor))
    requires descriptor in s.v.lent
    requires IsEmpty(s.slab[descriptor]) && s.slab[descriptor].next == None
    ensures EngineInv(Attach(s, descriptor), None)
  {
    hide Linked, InOrder;
    LinkedBounds(s.slab, s.v.chain, if s.v.chain == [] then None else Some(descriptor));
    LongerIsLinked(s.slab, s.v.chain, descriptor);
    LongerInOrder(s.slab, s.v, Attach(s, descriptor).v);
  }

  lemma LongerIsLinked(slab: Slab, chain: seq<nat>, descriptor: nat)
    requires Linked(slab, chain, if chain == [] then None else Some(descriptor))
    requires descriptor < |slab| && descriptor !in chain
    requires slab[descriptor].next == None && slab[descriptor].owner == Dma
    ensures Linked(slab, chain + [descriptor], None)
  {
  }

  lemma LongerInOrder(slab: Slab, v: View, v': View)
    requires v.done <= |v.chain| <= |v'.chain| && (forall i :: 0 <= i < |v'.chain| ==> v'.chain[i] < |slab|)
    requires v.chain <= v'.chain && v'.done == v.done && v'.completed == v.completed && v'.delivered == v.delivered
    requires InOrder(slab, v)
    ensures InOrder(slab, v')
  {
  }

  // A write to a lent descriptor does not disturb the chain.
  lemma LentWriteKeepsInv(s: Shared, a: nat, d: Descriptor)
    requires EngineInv(s, None) && a in s.v.lent
    ensures EngineInv(s.(slab := s.slab[a := d]), None)
  {
    assert forall i :: 0 <= i < |s.v.chain| ==> s.slab[a := d][s.v.chain[i]] == s.slab[s.v.chain[i]];
  }

  // Linking the tail to another descriptor does not disturb what is in front of it.
  lemma TailWriteKeepsInv(s: Shared, link: nat)
    requires EngineInv(s, None) && s.v.chain != []
    ensures var tail := s.v.chain[|s.v.chain| - 1];
      EngineInv(s.(slab := s.slab[tail := s.slab[tail].(next := Some(link))]), Some(link))
  {
  }

  // The engine may be sent to the first empty descriptor at any time.
  lemma ReloadKeepsInv(s: Shared)
    requires EngineInv(s, None) && s.v.done < |s.v.chain|
    ensures EngineInv(s.(engine := Reload(Some(s.v.chain[s.v.done]))), None)
  {
  }

  // Send a stalled engine to the first empty descriptor.
  ghost function Restart(s: Shared): (s': Shared) {
    if Stalled(s) then s.(engine := Reload(Some(s.v.chain[s.v.done]))) else s
  }

  // The descriptors are empty and linked in order.
  ghost predicate Fresh(slab: Slab) {
    forall i :: 0 <= i < |slab| ==>
      IsEmpty(slab[i]) && slab[i].next == if i + 1 < |slab| then Some(i + 1) else None
  }

  /** Initialize the descriptors in reverse, so that each can be linked to its successor. */
  method InitSlab(uninit: Slab) returns (slab: Slab, ends: Ends)
    requires 2 <= |uninit|
    ensures |slab| == |uninit| && Fresh(slab) && ends == Ends(0, |slab| - 1)
  {
    slab := uninit;
    var next, last, base := None, None, 0;
    for i := |slab| downto 0
      invariant |slab| == |uninit|
      invariant next == if i < |slab| then Some(i) else None
      invariant if i < |slab| then base == i && last == Some(|slab| - 1) else last == None
      invariant forall j :: i <= j < |slab| ==>
        IsEmpty(slab[j]) && slab[j].next == if j + 1 < |slab| then Some(j + 1) else None
    {
      slab := slab[i := Descriptor(next, false, Dma, slab[i].frame).ResetForRx()];
      next, base := Some(i), i;
      last := if last == None then Some(i) else last;
    }
    ends := Ends(base, last.value);
  }

  // All descriptors are linked, and the engine is at the first one.
  ghost function Initial(slab: Slab): (s: Shared) {
    Shared(slab, Reload(Some(0)), View(seq(|slab|, i => i), {}, 0, [], [], seq(|slab|, _ => [])))
  }

  lemma FreshInv(slab: Slab)
    requires 0 < |slab| && Fresh(slab)
    ensures EngineInv(Initial(slab), None) && LentInv(slab, Initial(slab).v)
  {
    var chain := Initial(slab).v.chain;
    forall a | 0 <= a < |slab|
      ensures a in chain
    {
      assert chain[a] == a;
    }
  }

  // The first `k` descriptors of the chain have been reset, and nothing else has changed.
  ghost predicate Clearing(s: Shared, slab: Slab, k: nat) {
    && |slab| == |s.slab|
    && (forall a :: 0 <= a < |slab| && a in s.v.lent ==> slab[a] == s.slab[a])
    && (forall i :: 0 <= i < |s.v.chain| && s.v.chain[i] < |slab| ==>
          slab[s.v.chain[i]] ==
          if i < k then s.slab[s.v.chain[i]].(sucEof := false, owner := Dma, frame := []) else s.slab[s.v.chain[i]])
  }

  // Account for the completed descriptors having been made empty.
  ghost function Cleared(v: View): (v': View)
    requires v.done <= |v.chain|
  {
    v.(done := 0, completed := v.delivered,
       written := seq(|v.written|, a requires 0 <= a < |v.written| => if a in v.chain[..v.done] then [] else v.written[a]))
  }

  lemma ClearStep(s: Shared, slab: Slab, k: nat)
    requires EngineInv(s, None) && Clearing(s, slab, k) && k < |s.v.chain| && s.v.chain[k] < |slab|
    ensures slab[s.v.chain[k]].sucEof <==> k < s.v.done
    ensures slab[s.v.chain[k]].next == if k + 1 < |s.v.chain| then Some(s.v.chain[k + 1]) else None
    ensures k + 1 < |s.v.chain| ==> s.v.chain[k + 1] < |slab|
    ensures Clearing(s, slab[s.v.chain[k] := slab[s.v.chain[k]].ResetForRx()], k + 1)
  {
  }

  lemma ClearEnd(s: Shared, slab: Slab)
    requires EngineInv(s, None) && LentInv(s.slab, s.v) && s.v.chain != [] && Clearing(s, slab, s.v.done)
    ensures var v := Cleared(s.v);
      EngineInv(Shared(slab, Reload(Some(s.v.chain[0])), v), None) && LentInv(slab, v)
    ensures forall i :: 0 <= i < s.v.done ==> s.v.chain[i] < |slab| && IsEmpty(slab[s.v.chain[i]])
  {
    hide Linked, Holds, Clearing, Cleared;
    LinkedBounds(s.slab, s.v.chain, None);
    ClearedFields(s.v);
    ClearedSlab(s, slab);
    ClearedHolds(s, slab);
  }

  lemma ClearedFields(v: View)
    requires v.done <= |v.chain|
    ensures Cleared(v) == v.(done := 0, completed := v.delivered, written := Cleared(v).written)
  {
  }

  lemma ClearedSlab(s: Shared, slab: Slab)
    requires Linked(s.slab, s.v.chain, None) && Filled(s.slab, s.v.chain, s.v.done) && Clearing(s, slab, s.v.done)
    ensures |slab| == |s.slab| && Linked(slab, s.v.chain, None)
    ensures forall i :: 0 <= i < |s.v.chain| ==> !slab[s.v.chain[i]].sucEof
    ensures forall i :: 0 <= i < s.v.done ==> IsEmpty(slab[s.v.chain[i]])
    ensures forall a :: 0 <= a < |slab| && a in s.v.lent ==> slab[a] == s.slab[a]
  {
  }

  lemma ClearedHolds(s: Shared, slab: Slab)
    requires s.v.done <= |s.v.chain| && forall i :: 0 <= i < |s.v.chain| ==> s.v.chain[i] < |s.slab|
    requires forall i, j :: 0 <= i < j < |s.v.chain| ==> s.v.chain[i] != s.v.chain[j]
    requires Holds(s.slab, s.v) && Clearing(s, slab, s.v.done)
    ensures Holds(slab, Cleared(s.v))
  {
    forall i | 0 <= i < |s.v.chain|
      ensures s.v.chain[i] in s.v.chain[..s.v.done] <==> i < s.v.done
    {
      if i < s.v.done {
        assert s.v.chain[..s.v.done][i] == s.v.chain[i];
      }
    }
  }

  // What the operations need to know of the invariant.
  lemma Facts(s: Shared)
    requires EngineInv(s, None)
    ensures s.v.done <= |s.v.chain| && |s.v.completed| == |s.v.delivered| + s.v.done && |s.v.written| == |s.slab|
    ensures s.v.done == 0 ==> s.v.completed == s.v.delivered
    ensures s.v.done == |s.v.chain| ==> s.engine == Reload(None)
    ensures 0 < s.v.done ==>
      && 0 < |s.v.chain| && s.v.chain[0] < |s.slab|
      && s.v.completed[|s.v.delivered|] == (s.v.chain[0], s.slab[s.v.chain[0]].frame)
    ensures forall a :: a in s.v.lent ==> a < |s.slab|
    ensures 0 < |s.v.chain| ==>
      && s.v.chain[0] < |s.slab| && s.v.chain[0] !in s.v.lent
      && s.v.chain[|s.v.chain| - 1] < |s.slab| && s.v.chain[|s.v.chain| - 1] !in s.v.lent
  {
    assert s.v.completed[..|s.v.completed|] == s.v.completed;
  }

  lemma LentAfterRun(s: Shared, s': Shared)
    requires LentInv(s.slab, s.v) && Grew(s, s')
    ensures LentInv(s'.slab, s'.v)
  {
  }

  lemma LentAfterTake(s: Shared, s': Shared, first: nat)
    requires LentInv(s.slab, s.v) && |s.slab| == |s'.slab|
    requires s.v.chain == [first] + s'.v.chain && s'.v.lent == s.v.lent + {first} && first < |s.slab|
    requires forall a :: a in s.v.lent ==> s'.slab[a] == s.slab[a]
    requires s'.slab[first].next == None && s'.slab[first].owner == Cpu
    ensures LentInv(s'.slab, s'.v)
  {
  }

  lemma LentAfterReturn(s: Shared, s': Shared, descriptor: nat)
    requires LentInv(s.slab, s.v) && |s.slab| == |s'.slab|
    requires s'.v.chain == s.v.chain + [descriptor] && s'.v.lent == s.v.lent - {descriptor}
    requires forall a :: a in s'.v.lent ==> s'.slab[a] == s.slab[a]
    ensures LentInv(s'.slab, s'.v)
  {
  }

  // What software finds in the `k`-th descriptor of the chain.
  lemma FactsAt(s: Shared, k: nat)
    requires EngineInv(s, None) && k < |s.v.chain|
    ensures s.v.chain[k] < |s.slab|
    ensures s.slab[s.v.chain[k]].sucEof <==> k < s.v.done
    ensures s.slab[s.v.chain[k]].next == if k + 1 < |s.v.chain| then Some(s.v.chain[k + 1]) else None
  {
  }

  class DmaList {
    var slab: Slab
    var engine: Engine
    var ends: Option<Ends>
    ghost var v: View

    constructor (slab: Slab, ends: Ends)
      requires 0 < |slab| && Fresh(slab) && ends == Ends(0, |slab| - 1)
      ensures Valid() && !Stalled(S())
      ensures S() == Initial(slab)
    {
      hide EngineInv, LentInv;
      this.slab, this.ends, this.engine := slab, Some(ends), Reload(Some(ends.first));
      v := Initial(slab).v;
      FreshInv(slab);
    }

    ghost function S(): Shared
      reads this
    {
      Shared(slab, engine, v)
    }

    ghost predicate Valid()
      reads this
    {
      && EngineInv(S(), None)
      && EndsInv(ends, v.chain)
      && LentInv(slab, v)
      && (Stalled(S()) ==> 0 < v.done)
    }

    /** Any number of engine steps. */
    method HardwareRuns()
      requires EngineInv(S(), None)
      modifies `slab, `engine, `v
      ensures EngineInv(S(), None) && Evolved(old(S()), S())
    {
      var steps: int := *;
      while 0 < steps
        invariant EngineInv(S(), None) && Evolved(old(S()), S())
      {
        var step: EngineStep := *;
        ghost var s := S();
        StepKeepsInv(s, step);
        HardwareStep(step);
        steps := steps - 1;
      }
    }

    method HardwareStep(step: EngineStep)
      requires EngineInv(S(), None)
      modifies `slab, `engine, `v
      ensures S() == Step(old(S()), step)
    {
      if engine.next.Some? {
        var a := engine.next.value;
        match step
        case Write(data) =>
          slab := slab[a := slab[a].(frame := slab[a].frame + data)];
          v := v.(written := v.written[a := v.written[a] + data]);
        case ReadAhead =>
          engine := engine.(prefetch := Fetched(slab[a].next));
        case Complete =>
          v := v.(done := v.done + 1, completed := v.completed + [(a, v.written[a])]);
          slab := slab[a := slab[a].(sucEof := true)];
          engine := Reload(if engine.prefetch.Fetched? then engine.prefetch.link else slab[a].next);
      }
    }

    /**
     Restart an exhausted engine at the first empty descriptor. Reloading the head instead would
     overwrite frames that were completed but not taken yet.
     */
    method RestartExhausted() returns (ghost before: Shared)
      requires EngineInv(S(), None) && EndsInv(ends, v.chain)
      modifies `slab, `engine, `v
      ensures EngineInv(before, None) && Evolved(old(S()), before) && S() == Restart(before)
      ensures EngineInv(S(), None) && !Stalled(S()) && Grew(old(S()), S())
    {
      hide EngineInv;
      Facts(S());
      HardwareRuns();
      before := S();
      if engine.next.Some? {
        return;
      }
      Facts(S());
      var current := if ends.Some? then Some(ends.value.first) else None;
      ghost var k := 0;
      while current.Some?
        invariant S() == before && 0 <= k <= v.done
        invariant current == if k < |v.chain| then Some(v.chain[k]) else None
        decreases |v.chain| - k
      {
        FactsAt(S(), k);
        if !slab[current.value].sucEof {
          ReloadKeepsInv(S());
          engine := Reload(current);
          return;
        }
        current := slab[current.value].next;
        k := k + 1;
      }
    }

    // Make `first` the first descriptor, of a list which may have been empty, and reload it.
    method SetRxChainBase(first: Option<nat>)
      modifies `ends, `engine
      ensures first == None ==> ends == None
      ensures first.Some? ==>
        ends == Some(Ends(first.value, if old(ends).Some? then old(ends).value.last else first.value))
      ensures engine == Reload(first)
    {
      match first
      case Some(descriptor) =>
        match ends {
          case Some(e) => ends := Some(e.(first := descriptor));
          case None => ends := Some(Ends(descriptor, descriptor));
        }
        engine := Reload(first);
      case None =>
        ends := None;
        engine := Reload(None);
    }

    /** Take the first descriptor out of the list, if it is completed. */
    method TakeFirst() returns (taken: Option<nat>)
      requires Valid()
      modifies this
      ensures Valid() && |slab| == |old(slab)|
      // A completed head is always taken, with the frame it was completed with.
      ensures 0 < old(v).done ==> taken.Some?
      ensures taken.Some? ==>
        && old(v).chain == [taken.value] + v.chain
        && v.lent == old(v).lent + {taken.value}
        && v.delivered == old(v).delivered + [(taken.value, slab[taken.value].frame)]
      ensures taken == None ==>
        v.chain == old(v).chain && v.lent == old(v).lent && v.delivered == old(v).delivered
      // Buffers that are lent out are not touched.
      ensures forall a :: a in old(v).lent ==> a < |slab| == |old(slab)| && slab[a] == old(slab)[a]
      ensures old(v).completed <= v.completed
      // The engine is never left stopped beside an empty descriptor by this call: if it is, it
      // stopped by itself, completing a descriptor after it was checked.
      ensures Stalled(S()) ==> |old(v).completed| < |v.completed|
    {
      hide EngineInv, LentInv;
      ghost var s := S();
      Facts(s);
      HardwareRuns();
      Facts(S());
      LentAfterRun(s, S());
      if ends == None {
        return None;
      }
      var first := ends.value.first;
      FactsAt(S(), 0);
      if slab[first].sucEof {
        TakeCompleted(first);
        return Some(first);
      } else {
        RestartThenRun();
        LentAfterRun(s, S());
        return None;
      }
    }

    // The part of `TakeFirst` behind its test of the head.
    method TakeCompleted(first: nat)
      requires EngineInv(S(), None) && EndsInv(ends, v.chain) && LentInv(slab, v)
      requires 0 < v.done && v.chain != [] && first == v.chain[0]
      modifies this
      ensures Valid() && |slab| == |old(slab)| && first < |slab|
      ensures old(v).chain == [first] + v.chain && v.lent == old(v).lent + {first}
      ensures v.delivered == old(v).delivered + [(first, slab[first].frame)]
      ensures forall a :: a in old(v).lent ==> a < |slab| && slab[a] == old(slab)[a]
      ensures old(v).completed <= v.completed
      ensures Stalled(S()) ==> |old(v).completed| < |v.completed|
    {
      hide EngineInv, LentInv;
      ghost var s := S();
      Facts(s);
      Unlink(first);
      Facts(S());
      Release(first);
      Facts(S());
      LentAfterTake(s, S(), first);
    }

    method RestartThenRun()
      requires EngineInv(S(), None) && EndsInv(ends, v.chain)
      modifies `slab, `engine, `v
      ensures EngineInv(S(), None) && Grew(old(S()), S())
      ensures Stalled(S()) ==> 0 < v.done && |old(v).completed| < |v.completed|
    {
      hide EngineInv;
      Facts(S());
      ghost var _ := RestartExhausted();
      Facts(S());
      HardwareRuns();
      Facts(S());
    }

    // Move the head behind the completed descriptor `first`, and restart the engine if it ran dry.
    method Unlink(first: nat)
      requires EngineInv(S(), None) && EndsInv(ends, v.chain) && 0 < v.done && first == v.chain[0]
      modifies this
      ensures EngineInv(S(), None) && EndsInv(ends, v.chain) && !Stalled(S()) && |slab| == |old(slab)|
      ensures old(v).chain == [first] + v.chain && v.lent == old(v).lent + {first}
      ensures v.delivered == old(v).delivered + [(first, old(slab)[first].frame)]
      ensures slab[first].frame == old(slab)[first].frame
      ensures old(v).completed <= v.completed
      ensures forall a :: a in old(v).lent ==> slab[a] == old(slab)[a]
    {
      hide EngineInv;
      Facts(S());
      HardwareRuns();
      ghost var s := S();
      Facts(s);
      FactsAt(s, 0);
      var next := slab[first].next;
      DetachKeepsInv(s);
      assert v.chain == [first] + v.chain[1..];
      v := Detach(s).v;
      Facts(S());
      if next.Some? {
        ends := Some(ends.value.(first := next.value));
        ghost var _ := RestartExhausted();
      } else {
        SetRxChainBase(None);
      }
    }

    // Hand `first`, which is not linked any more, over to the caller.
    method Release(first: nat)
      requires EngineInv(S(), None) && first in v.lent && !Stalled(S())
      modifies `slab, `engine, `v
      ensures EngineInv(S(), None)
      ensures first < |slab| == |old(slab)|
      ensures Grew(old(S()).(slab := old(slab)[first := slab[first]]), S())
      ensures slab[first] == old(slab)[first].(owner := Cpu, next := None)
      ensures Stalled(S()) ==> old(v).done < v.done
    {
      hide EngineInv;
      HardwareRuns();
      WriteLent(first, slab[first].(owner := Cpu));
      HardwareRuns();
      WriteLent(first, slab[first].(next := None));
      HardwareRuns();
    }

    method WriteLent(a: nat, d: Descriptor)
      requires EngineInv(S(), None) && a in v.lent
      modifies `slab
      ensures EngineInv(S(), None) && slab == old(slab)[a := d]
    {
      ghost var s := S();
      LentWriteKeepsInv(s, a, d);
      slab := slab[a := d];
    }

    /** Return a borrowed descriptor to the end of the list. */
    method Recycle(descriptor: nat)
      requires Valid() && descriptor in v.lent
      modifies this
      ensures Valid() && |slab| == |old(slab)|
      ensures v.chain == old(v).chain + [descriptor] && v.lent == old(v).lent - {descriptor}
      ensures v.delivered == old(v).delivered && old(v).completed <= v.completed
      ensures forall a :: a in v.lent ==> a < |slab| == |old(slab)| && slab[a] == old(slab)[a]
      ensures Stalled(S()) ==> |old(v).completed| < |v.completed|
    {
      hide EngineInv, LentInv;
      ghost var s := S();
      Facts(s);
      ResetLent(descriptor);
      Append(descriptor);
      Facts(S());
      HardwareRuns();
      Facts(S());
      LentAfterReturn(s, S(), descriptor);
    }

    // Make the borrowed `descriptor` empty and unlinked.
    method ResetLent(descriptor: nat)
      requires EngineInv(S(), None) && descriptor in v.lent
      modifies `slab, `engine, `v
      ensures EngineInv(S(), None) && |slab| == |old(slab)| && descriptor < |slab|
      ensures IsEmpty(slab[descriptor]) && slab[descriptor].next == None
      ensures Grew(old(S()).(slab := old(slab)[descriptor := slab[descriptor]]), S())
    {
      hide EngineInv;
      Facts(S());
      HardwareRuns();
      WriteLent(descriptor, slab[descriptor].(next := None));
      HardwareRuns();
      WriteLent(descriptor, slab[descriptor].ResetForRx());
      HardwareRuns();
    }

    // Link the empty `descriptor` behind the tail, and restart the engine if it ran dry.
    method Append(descriptor: nat)
      requires EngineInv(S(), None) && EndsInv(ends, v.chain) && descriptor in v.lent && descriptor < |slab|
      requires IsEmpty(slab[descriptor]) && slab[descriptor].next == None
      modifies this
      ensures EngineInv(S(), None) && EndsInv(ends, v.chain) && !Stalled(S()) && |slab| == |old(slab)|
      ensures v.chain == old(v).chain + [descriptor] && v.lent == old(v).lent - {descriptor}
      ensures v.delivered == old(v).delivered && old(v).completed <= v.completed
      ensures forall a :: a in v.lent ==> slab[a] == old(slab)[a]
    {
      hide EngineInv;
      Facts(S());
      match ends {
        case Some(e) =>
          Link(e.last, descriptor);
          HardwareRuns();
          ends := Some(e.(last := descriptor));
          ghost var _ := RestartExhausted();
        case None =>
          AttachKeepsInv(S(), descriptor);
          v := Attach(S(), descriptor).v;
          ReloadKeepsInv(S());
          SetRxChainBase(Some(descriptor));
      }
    }

    // Write the tail's link.
    method Link(last: nat, descriptor: nat)
      requires EngineInv(S(), None) && v.chain != [] && last == v.chain[|v.chain| - 1]
      requires descriptor in v.lent && descriptor < |slab|
      requires IsEmpty(slab[descriptor]) && slab[descriptor].next == None
      modifies `slab, `v
      ensures EngineInv(S(), None) && last < |slab|
      ensures slab == old(slab)[last := slab[last]] && v == Attach(old(S()), descriptor).v
    {
      hide EngineInv;
      Facts(S());
      TailWriteKeepsInv(S(), descriptor);
      slab := slab[last := slab[last].(next := Some(descriptor))];
      AttachKeepsInv(S(), descriptor);
      v := Attach(S(), descriptor).v;
    }

    /**
     Mark all completed descriptors as empty again and start over at the head. No step of the engine
     falls into this call.
     */
    method Clear()
      requires Valid()
      modifies this
      ensures Valid() && |slab| == |old(slab)|
      ensures old(v).done <= |old(v).chain| && v == Cleared(old(v))
      ensures forall i :: 0 <= i < old(v).done ==> v.chain[i] < |slab| && IsEmpty(slab[v.chain[i]])
      ensures forall a :: a in v.lent ==> a < |slab| && slab[a] == old(slab)[a]
      ensures v.chain != [] ==> engine == Reload(Some(v.chain[0]))
    {
      hide EngineInv, LentInv;
      Facts(S());
      if ends == None {
        assert Cleared(v).written == v.written;
        return;
      }
      ghost var s := S();
      ResetCompleted(ends.value.first);
      ClearEnd(s, slab);
      v := Cleared(v);
      SetRxChainBase(Some(ends.value.first));
    }

    // Walk over the completed descriptors and mark them as empty.
    method ResetCompleted(first: nat)
      requires EngineInv(S(), None) && v.chain != [] && first == v.chain[0]
      modifies `slab
      ensures Clearing(old(S()), slab, v.done)
    {
      hide EngineInv;
      Facts(S());
      FactsAt(S(), 0);
      var current := first;
      ghost var s, k := S(), 0;
      assert Clearing(s, slab, 0);
      while slab[current].sucEof
        invariant 0 <= k < |v.chain| && k <= v.done && current == v.chain[k] < |slab| == |s.slab|
        invariant Clearing(s, slab, k)
        decreases |v.chain| - k
        modifies `slab
      {
        ClearStep(s, slab, k);
        slab := slab[current := slab[current].ResetForRx()];
        if slab[current].next == None {
          k := k + 1;
          break;
        }
        current := slab[current].next.value;
        k := k + 1;
      }
      if k < |v.chain| {
        ClearStep(s, slab, k);
      }
    }
  }

  // Following the links in memory `n` times.
  ghost function Follow(slab: Slab, from: Option<nat>, n: nat): (to: Option<nat>)
    decreases n
  {
    if n == 0 || from == None || |slab| <= from.value then from else Follow(slab, slab[from.value].next, n - 1)
  }

  /** The links in memory lead from the head through the live chain, and then end: there is no cycle. */
  lemma {:induction false} FollowVisitsChain(slab: Slab, chain: seq<nat>, k: nat, n: nat)
    requires Linked(slab, chain, None) && k < |chain|
    ensures Follow(slab, Some(chain[k]), n) == if k + n < |chain| then Some(chain[k + n]) else None
    decreases n
  {
    if 0 < n && k + 1 < |chain| {
      FollowVisitsChain(slab, chain, k + 1, n - 1);
    }
  }

  // The completed frames that are still in the chain.
  ghost function Pending(s: Shared): (p: seq<Completion>)
    requires EngineInv(s, None)
  {
    seq(s.v.done, i requires 0 <= i < s.v.done => (s.v.chain[i], s.slab[s.v.chain[i]].frame))
  }

  lemma DeliveredThenPending(s: Shared)
    requires EngineInv(s, None)
    ensures s.v.completed == s.v.delivered + Pending(s)
  {
    assert s.v.completed == s.v.completed[..|s.v.delivered|] + s.v.completed[|s.v.delivered|..];
  }

  datatype Call = Take | Return | Clear | Wait

  /**
   Any sequence of calls, with any of the borrowed descriptors returned by `Return`, and with the
   engine running in between and during the calls.
   */
  method Run(list: DmaList, calls: seq<Call>) returns (held: map<nat, Frame>, taken: seq<Completion>)
    requires list.Valid() && list.v.lent == {} && list.v.completed == list.v.delivered == []
    modifies list
    ensures list.Valid() && list.v.delivered == taken
    // A borrowed buffer keeps the frame it was taken with for as long as it is held.
    ensures list.v.lent == held.Keys && forall a :: a in held ==> a < |list.slab| && list.slab[a].frame == held[a]
    // What was taken, followed by what is still waiting, is what hardware completed and no `Clear` discarded.
    ensures EngineInv(list.S(), None) && list.v.completed == taken + Pending(list.S())
  {
    hide EngineInv, LentInv, EndsInv;
    held, taken := map[], [];
    for n := 0 to |calls|
      invariant list.Valid() && list.v.lent == held.Keys && list.v.delivered == taken
      invariant forall a :: a in held ==> a < |list.slab| && list.slab[a].frame == held[a]
    {
      Facts(list.S());
      match calls[n]
      case Take =>
        var first := list.TakeFirst();
        Facts(list.S());
        if first.Some? {
          held := held[first.value := list.slab[first.value].frame];
          taken := taken + [(first.value, list.slab[first.value].frame)];
        }
      case Return =>
        if held != map[] {
          var descriptor :| descriptor in held;
          list.Recycle(descriptor);
          held := held - {descriptor};
        }
      case Clear =>
        list.Clear();
      case Wait =>
        Wait(list);
    }
    DeliveredThenPending(list.S());
  }

  // Let the engine run between two calls.
  method Wait(list: DmaList)
    requires list.Valid()
    modifies list
    ensures list.Valid() && Grew(old(list.S()), list.S())
  {
    hide EngineInv, LentInv;
    ghost var s := list.S();
    Facts(s);
    list.HardwareRuns();
    Facts(list.S());
    LentAfterRun(s, list.S());
  }
}
