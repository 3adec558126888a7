/** The comparison on the heap: two providers that fill and publish their slices, and a response
    made of copied objects, driven through a schedule of the interleaved steps. */
module ComparisonHeap {
  import opened Decimal
  import opened ComparisonSlots
  import opened CompareRuns
  import opened ProgressState

  /** The pointers a response holds for one token. */
  datatype HeapPair<A, B> = HeapPair(cg: MarketObject?<A>, cmc: MarketObject?<B>)

  /** The heap of one side agrees with its abstract state: what is published, what the response
      read, and, once a check has passed, the slice about to be published. */
  ghost predicate Agrees<ID>(x: Exchange<ID>, s: Side<Market<ID>>, slots: nat)
    requires x.Valid()
    reads x, x.result, x.result.Repr, x.progress, x.progress.Repr, x.column, if x.column == null then {}
          else x.column.Repr
  {
    && x.result.slots.Length == slots && x.progress.Shows() == s.p.shown
    && (s.p.passed && s.p.ahead != [] ==> x.result.View() == s.p.ahead[0])
    && ShownBy(x.column) == (if s.read.Some? then s.read.value else None)
  }

  /** One step of a side.  Before every live check the provider has filled its slice with the
      column it is about to hand over, whether the check comes in time or not. */
  method Advance<ID>(x: Exchange<ID>, ghost s: Side<Market<ID>>, move: Move, filled: seq<Option<Market<ID>>>,
                     ghost slots: nat)
    requires x.Valid() && Agrees(x, s, slots) && CanMove(s, move)
    requires move == Turn(Check) ==> filled == s.p.ahead[0] && |filled| == slots
    modifies x.Objects()
    ensures x.Valid() && fresh(x.Objects() - old(x.Objects())) && Agrees(x, Moved(s, move), slots)
    ensures move != Read ==>
              x.column == old(x.column) && (x.column != null ==> x.column.slots[..] == old(x.column.slots[..]))
  {
    match move
    case Turn(turn) =>
      match turn {
        case Check => x.Fill(filled);
        case Publish => x.Publish();
        case Close =>
      }
    case Deadline =>
    case Read => x.Respond();
    case Elsewhere =>
  }

  /** A step of one side leaves the other, with which it shares nothing, as it was. */
  method AdvanceBeside<ID, O>(x: Exchange<ID>, ghost s: CompareRuns.Side<Market<ID>>, move: Move,
                              filled: seq<Option<Market<ID>>>,
                              ghost y: Exchange<O>, ghost t: CompareRuns.Side<Market<O>>, ghost slots: nat)
    requires x.Valid() && Agrees(x, s, slots) && CanMove(s, move)
    requires move == Turn(Check) ==> filled == s.p.ahead[0] && |filled| == slots
    requires y.Valid() && Agrees(y, t, slots) && x.Objects() !! y.Objects()
    modifies x.Objects()
    ensures x.Valid() && Agrees(x, Moved(s, move), slots) && y.Valid() && Agrees(y, t, slots)
    ensures x.Objects() !! y.Objects() && y.Objects() == old(y.Objects())
    ensures forall o | o in x.Objects() && o !in old(x.Objects()) :: fresh(o)
    ensures SameColumn(y) && (move != Read ==> SameColumn(x))
  {
    hide Moved, CanMove;
    Advance(x, s, move, filled, slots);
  }

  /** The response's column holds the same pointers. */
  twostate predicate SameColumn<ID>(x: Exchange<ID>)
    reads x, x.column, if x.column == null then {} else {x.column.slots}
  {
    x.column == old(x.column) && (x.column != null ==> x.column.slots[..] == old(x.column.slots[..]))
  }

  function SlotOf<ID>(column: Slice?<ID>, i: nat): MarketObject?<ID>
    reads column, if column == null then {} else {column.slots}
  {
    if column != null && i < column.slots.Length then column.slots[i] else null
  }

  ghost function SlotShown<ID>(m: MarketObject?<ID>): Option<Market<ID>>
    reads *
  {
    if m == null then None else Some(m.Shown())
  }

  /** The column a provider is about to hand over has a slot for each token. */
  lemma ColumnAhead<T>(script: seq<seq<Option<T>>>, slots: nat, s: CompareRuns.Side<T>)
    requires WellFormed(script, slots) && SideInv(script, s)
    ensures s.p.ahead != [] ==> |s.p.ahead[0]| == slots
  {
    hide Growing, Among;
  }

  function NextColumn<T>(p: Provider<T>): seq<Option<T>> {
    if p.ahead == [] then [] else p.ahead[0]
  }

  class Race<A, B> {
    const setup: Comparison<Market<A>, Market<B>>
    const cg: Exchange<A>
    const cmc: Exchange<B>
    /** The response, filled when both columns are read. */
    const pairs: array<HeapPair<A, B>>

    /** The two sides and the response share nothing. */
    ghost predicate Apart()
      reads *
    {
      cg.Valid() && cmc.Valid() && cg.Objects() !! cmc.Objects() && pairs !in cg.Objects() && pairs !in cmc.Objects()
    }

    /** The response holds the columns' own pointers once it is returned, and nothing before. */
    ghost predicate Holds(returned: bool)
      reads *
    {
      forall i | 0 <= i < pairs.Length ::
        pairs[i] == if returned then HeapPair(SlotOf(cg.column, i), SlotOf(cmc.column, i)) else HeapPair(null, null)
    }

    ghost predicate SidesAgree(a: CompareRuns.Side<Market<A>>, b: CompareRuns.Side<Market<B>>)
      reads *
    {
      Apart() && Agrees(cg, a, setup.slots) && Agrees(cmc, b, setup.slots)
    }

    /** The heap is in this state of the comparison. */
    ghost predicate IsIn(s: State<Market<A>, Market<B>>)
      reads *
    {
      && setup.Valid() && setup.Inv(s) && pairs.Length == setup.slots
      && SidesAgree(setup.CgSide(s), setup.CmcSide(s)) && Holds(s.response.Returned?)
    }

    constructor (setup: Comparison<Market<A>, Market<B>>)
      requires setup.Valid()
      ensures IsIn(setup.Init()) && this.setup == setup
      ensures fresh(cg.Objects()) && fresh(cmc.Objects()) && fresh(pairs)
    {
      hide SideInv, WellFormed, SlotOf, Comparison.Inv, Comparison.Valid, Agrees, Exchange.Valid, Comparison.Init,
           Start,
           Progress.Shows, Among;
      this.setup := setup;
      cg := new Exchange<A>(setup.slots);
      cmc := new Exchange<B>(setup.slots);
      pairs := new HeapPair<A, B>[setup.slots](_ => HeapPair(null, null));
      new;
      hide IsIn;
      Starts();
    }

    lemma Starts()
      requires setup.Valid() && Apart() && pairs.Length == setup.slots
      requires forall i | 0 <= i < pairs.Length :: pairs[i] == HeapPair(null, null)
      requires cg.column == null && cg.progress.Shows() == None && cg.result.slots.Length == setup.slots
      requires cmc.column == null && cmc.progress.Shows() == None && cmc.result.slots.Length == setup.slots
      ensures IsIn(setup.Init())
    {
      setup.Reachable([]);
      StartAgrees(cg, setup.cg, setup.slots);
      StartAgrees(cmc, setup.cmc, setup.slots);
      hide SideInv, WellFormed, Agrees, Exchange.Valid;
    }

    static lemma StartAgrees<ID>(x: Exchange<ID>, script: seq<seq<Option<Market<ID>>>>, slots: nat)
      requires x.Valid() && x.column == null && x.progress.Shows() == None && x.result.slots.Length == slots
      ensures Agrees(x, Side(Start(script), false, None), slots)
    {
    }

    /** What the response's objects show for one token. */
    ghost function PairShown(i: nat): Pair<Market<A>, Market<B>>
      requires i < pairs.Length
      reads *
    {
      Pair(SlotShown(pairs[i].cg), SlotShown(pairs[i].cmc))
    }

    /** Once returned, the response's objects show exactly the abstract response. */
    lemma ResponseIs(s: State<Market<A>, Market<B>>)
      requires IsIn(s) && s.response.Returned?
      ensures |s.response.pairs| == pairs.Length
      ensures forall i | 0 <= i < pairs.Length :: PairShown(i) == s.response.pairs[i]
    {
      assert setup.WaitInv(s);
      forall i | 0 <= i < pairs.Length
        ensures PairShown(i) == s.response.pairs[i]
      {
        ColumnShows(cg, s.response.cg, i);
        ColumnShows(cmc, s.response.cmc, i);
      }
    }

    static lemma ColumnShows<ID>(x: Exchange<ID>, column: Snapshot<Market<ID>>, i: nat)
      requires x.Valid() && ShownBy(x.column) == column
      ensures SlotShown(SlotOf(x.column, i)) == At(column, i)
    {
      if x.column != null && i < x.column.slots.Length {
        assert x.column.View()[i] == x.column.Slot(i);
      }
    }

    /** Follows a whole schedule.  The response, once returned, keeps its pointers and everything
        they show, whatever the providers still fill, publish or close. */
    method Follow(done: seq<Action>, more: seq<Action>)
      requires setup.Runs(done) && setup.Runs(done + more) && IsIn(setup.After(done))
      modifies pairs, cg.Objects(), cmc.Objects()
      ensures IsIn(setup.After(done + more))
      ensures setup.After(done).response.Returned? ==>
                pairs[..] == old(pairs[..]) && forall i | 0 <= i < pairs.Length :: PairShown(i) == old(PairShown(i))
    {
      hide IsIn, PairShown, Comparison.Next, Comparison.Enabled;
      assert done + more[..0] == done;
      if setup.After(done).response.Returned? {
        ResponseIs(setup.After(done));
      }
      for n := 0 to |more|
        invariant setup.Runs(done + more[..n]) && IsIn(setup.After(done + more[..n]))
        invariant forall o | o in cg.Objects() && o !in old(cg.Objects()) :: fresh(o)
        invariant forall o | o in cmc.Objects() && o !in old(cmc.Objects()) :: fresh(o)
        invariant setup.After(done).response.Returned? ==>
                    pairs[..] == old(pairs[..]) && setup.After(done + more[..n]).response == setup.After(done).response
      {
        NextOf(done, more, n);
        Do(setup.After(done + more[..n]), more[n]);
      }
      assert done + more[..|more|] == done + more;
      if setup.After(done).response.Returned? {
        ResponseIs(setup.After(done + more));
      }
    }

    /** A comparison from its start: in whatever interleaving, the returned objects show the
        response that the schedule gives. */
    static method Compare(setup: Comparison<Market<A>, Market<B>>, schedule: seq<Action>) returns (race: Race<A, B>)
      requires setup.Valid() && setup.Runs(schedule)
      ensures race.setup == setup && race.IsIn(setup.After(schedule))
      ensures setup.After(schedule).response.Returned? ==>
                && |setup.After(schedule).response.pairs| == race.pairs.Length == setup.slots
                && (forall i | 0 <= i < race.pairs.Length ::
                    race.PairShown(i) == setup.After(schedule).response.pairs[i])
    {
      race := new Race(setup);
      hide SideInv, WellFormed, Comparison.Valid, Comparison.Inv, Comparison.Next;
      assert [] + schedule == schedule;
      race.Follow([], schedule);
      if setup.After(schedule).response.Returned? {
        race.ResponseIs(setup.After(schedule));
      }
    }

    lemma NextOf(done: seq<Action>, more: seq<Action>, n: nat)
      requires n < |more| && setup.Runs(done + more) && setup.Runs(done + more[..n])
      ensures setup.Runs(done + more[..n + 1]) && setup.Enabled(setup.After(done + more[..n]), more[n])
      ensures setup.After(done + more[..n + 1]) == setup.Next(setup.After(done + more[..n]), more[n])
      ensures setup.After(done + more[..n]).response.Returned? ==>
                setup.After(done + more[..n + 1]).response == setup.After(done + more[..n]).response
    {
      setup.RunsPrefix(done + more, |done| + n + 1);
      var longer := done + more[..n + 1];
      assert (done + more)[..|done| + n + 1] == longer;
      assert longer[..|longer| - 1] == done + more[..n];
    }

    /** One step of the schedule, on the heap. */
    method Do(s: State<Market<A>, Market<B>>, action: Action)
      requires IsIn(s) && setup.Enabled(s, action)
      modifies pairs, cg.Objects(), cmc.Objects()
      ensures IsIn(setup.Next(s, action))
      ensures forall o | o in cg.Objects() && o !in old(cg.Objects()) :: fresh(o)
      ensures forall o | o in cmc.Objects() && o !in old(cmc.Objects()) :: fresh(o)
      ensures s.response.Returned? ==> pairs[..] == old(pairs[..])
    {
      hide SideInv, WellFormed, SlotOf, Agrees, Comparison.Inv, Comparison.Valid, Comparison.Next, Comparison.Enabled,
           Comparison.CgSide, Comparison.CmcSide, Comparison.CgMove, Comparison.CmcMove, CanMove, Moved, SidesAgree,
           Holds,
           Exchange.Objects;
      StepFacts(s, action);
      ghost var returned := s.response.Returned?;
      MoveCg(s, action, returned);
      MoveCmc(s, action, returned);
      if action == ReadCMC {
        TakePairs(Moved(setup.CgSide(s), setup.CgMove(action)), Moved(setup.CmcSide(s), setup.CmcMove(action)));
      }
      Arrived(s, action);
    }

    /** The step is one of each side, and the column a side hands over has a slot for each token. */
    ghost predicate Fits(s: State<Market<A>, Market<B>>, action: Action) {
      && CanMove(setup.CgSide(s), setup.CgMove(action)) && CanMove(setup.CmcSide(s), setup.CmcMove(action))
      && (setup.CgMove(action) == Turn(Check) ==> s.cg.ahead != [] && |s.cg.ahead[0]| == setup.slots)
      && (setup.CmcMove(action) == Turn(Check) ==> s.cmc.ahead != [] && |s.cmc.ahead[0]| == setup.slots)
      && (s.response.Returned? ==> action != ReadCG && action != ReadCMC)
    }

    lemma StepFacts(s: State<Market<A>, Market<B>>, action: Action)
      requires IsIn(s) && setup.Enabled(s, action)
      ensures Fits(s, action) && SidesAgree(setup.CgSide(s), setup.CmcSide(s)) && Holds(s.response.Returned?)
      ensures pairs.Length == setup.slots
    {
      setup.SidesMove(s, action);
      ColumnAhead(setup.cg, setup.slots, setup.CgSide(s));
      ColumnAhead(setup.cmc, setup.slots, setup.CmcSide(s));
      hide SideInv, WellFormed, SidesAgree, Holds;
    }

    lemma Arrived(s: State<Market<A>, Market<B>>, action: Action)
      requires setup.Valid() && setup.Inv(s) && setup.Enabled(s, action) && Fits(s, action)
      requires SidesAgree(Moved(setup.CgSide(s), setup.CgMove(action)), Moved(setup.CmcSide(s), setup.CmcMove(action)))
      requires Holds(s.response.Returned? || action == ReadCMC) && pairs.Length == setup.slots
      ensures IsIn(setup.Next(s, action))
    {
      setup.SidesMove(s, action);
      setup.StepKeeps(s, action);
      hide SideInv, WellFormed, SidesAgree, Holds;
    }

    method MoveCg(s: State<Market<A>, Market<B>>, action: Action, ghost returned: bool)
      requires Fits(s, action) && SidesAgree(setup.CgSide(s), setup.CmcSide(s))
      requires Holds(returned) && (returned ==> s.response.Returned?)
      modifies cg.Objects()
      ensures SidesAgree(Moved(setup.CgSide(s), setup.CgMove(action)), setup.CmcSide(s)) && Holds(returned)
      ensures forall o | o in cg.Objects() && o !in old(cg.Objects()) :: fresh(o)
      ensures cmc.Objects() == old(cmc.Objects())
      ensures pairs[..] == old(pairs[..])
    {
      hide CanMove, Moved, Comparison.CgSide, Comparison.CmcSide, Comparison.CgMove, NextColumn, Agrees, Exchange.Valid,
           Holds;
      SideAndMove(s, action);
      AdvanceBeside(cg, setup.CgSide(s), setup.CgMove(action), NextColumn(s.cg), cmc, setup.CmcSide(s), setup.slots);
      assert Holds(returned) by {
        HoldsStill(returned);
      }
    }

    method MoveCmc(s: State<Market<A>, Market<B>>, action: Action, ghost returned: bool)
      requires Fits(s, action) && SidesAgree(Moved(setup.CgSide(s), setup.CgMove(action)), setup.CmcSide(s))
      requires Holds(returned) && (returned ==> s.response.Returned?)
      modifies cmc.Objects()
      ensures SidesAgree(Moved(setup.CgSide(s), setup.CgMove(action)), Moved(setup.CmcSide(s), setup.CmcMove(action)))
      ensures action != ReadCMC ==> Holds(returned)
      ensures forall o | o in cmc.Objects() && o !in old(cmc.Objects()) :: fresh(o)
      ensures cg.Objects() == old(cg.Objects())
      ensures pairs[..] == old(pairs[..])
    {
      hide CanMove, Moved, Comparison.CgSide, Comparison.CmcSide, Comparison.CmcMove, NextColumn, Agrees,
           Exchange.Valid,
           SameColumn, Holds;
      SideAndMove(s, action);
      AdvanceBeside(cmc, setup.CmcSide(s), setup.CmcMove(action), NextColumn(s.cmc), cg,
                    Moved(setup.CgSide(s), setup.CgMove(action)), setup.slots);
      if action != ReadCMC {
        HoldsStill(returned);
      }
    }

    /** The response still holds the columns' pointers when the columns hold the same ones. */
    twostate lemma HoldsStill(returned: bool)
      requires old(Holds(returned)) && unchanged(pairs) && (returned ==> SameColumn(cg) && SameColumn(cmc))
      ensures Holds(returned)
    {
      if returned {
        SlotsStay(cg);
        SlotsStay(cmc);
        hide SlotOf, SameColumn;
      }
    }

    static twostate lemma SlotsStay<ID>(x: Exchange<ID>)
      requires SameColumn(x)
      ensures forall i: nat :: SlotOf(x.column, i) == old(SlotOf(x.column, i))
    {
      if x.column != null {
        assert forall i | 0 <= i < x.column.slots.Length :: x.column.slots[i] == x.column.slots[..][i];
      }
    }

    lemma SideAndMove(s: State<Market<A>, Market<B>>, action: Action)
      ensures setup.CgSide(s).p == s.cg && setup.CmcSide(s).p == s.cmc
      ensures setup.CgMove(action) == Read <==> action == ReadCG
      ensures setup.CmcMove(action) == Read <==> action == ReadCMC
      ensures s.cg.ahead != [] ==> NextColumn(s.cg) == s.cg.ahead[0]
      ensures s.cmc.ahead != [] ==> NextColumn(s.cmc) == s.cmc.ahead[0]
    {
    }

    /** The response takes both columns' pointers. */
    method TakePairs(ghost a: CompareRuns.Side<Market<A>>, ghost b: CompareRuns.Side<Market<B>>)
      requires SidesAgree(a, b)
      modifies pairs
      ensures SidesAgree(a, b) && Holds(true) && cg.Objects() == old(cg.Objects())
      ensures cmc.Objects() == old(cmc.Objects())
    {
      hide SlotOf;
      TakePointers();
    }

    method TakePointers()
      modifies pairs
      ensures Holds(true)
    {
      hide SlotOf;
      for i := 0 to pairs.Length
        invariant forall j | 0 <= j < i :: pairs[j] == HeapPair(SlotOf(cg.column, j), SlotOf(cmc.column, j))
      {
        pairs[i] := HeapPair(SlotOf(cg.column, i), SlotOf(cmc.column, i));
      }
    }
  }
}
