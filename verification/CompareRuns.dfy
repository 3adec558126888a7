/** The comparison under one deadline, as interleaved steps of two provider goroutines, the
    deadline, and the goroutine that answers. */
module CompareRuns {
  import opened Decimal
  import opened ComparisonSlots

  /** A column of slots, or nil. */
  type Snapshot<T> = Option<seq<Option<T>>>

  datatype Pair<A, B> = Pair(cg: Option<A>, cmc: Option<B>)

  /** One provider goroutine and its progress state.  `ahead` are the columns it has yet to hand
      to a callback, its final answer last; `passed`, that it found the context live and is about
      to publish the next of them; `closed`, that its done channel is closed. */
  datatype Provider<T> = Provider(ahead: seq<seq<Option<T>>>, passed: bool, shown: Snapshot<T>, closed: bool)

  /** The answering goroutine: which done channels it has seen, what it has read. */
  datatype Response<A, B> =
    | Waiting(cgSeen: bool, cmcSeen: bool)
    | Merging
    | HalfRead(cg: Snapshot<A>)
    | Returned(cg: Snapshot<A>, cmc: Snapshot<B>, pairs: seq<Pair<A, B>>)

  datatype State<A, B> = State(cg: Provider<A>, cmc: Provider<B>, expired: bool, response: Response<A, B>)

  datatype Turn = Check | Publish | Close

  datatype Action = CG(turn: Turn) | CMC(turn: Turn) | Expire | SeeCG | SeeCMC | GiveUp | Leave | ReadCG | ReadCMC

  /** An absent provider is closed from the start; a present one has at least its final answer to
      hand over. */
  function Start<T>(script: seq<seq<Option<T>>>): Provider<T> {
    Provider(script, false, None, script == [])
  }

  predicate CanTake<T>(p: Provider<T>, turn: Turn) {
    match turn
    case Check => p.ahead != [] && !p.passed
    case Publish => p.ahead != [] && p.passed
    case Close => p.ahead == [] && !p.closed
  }

  /** The live check, the publication under the lock, and closing the done channel are separate
      steps; a check that comes too late drops the publication. */
  function Take<T>(p: Provider<T>, turn: Turn, expired: bool): Provider<T>
    requires CanTake(p, turn)
  {
    match turn
    case Check => if expired then p.(ahead := p.ahead[1..]) else p.(passed := true)
    case Publish => p.(ahead := p.ahead[1..], passed := false, shown := Some(p.ahead[0]))
    case Close => p.(closed := true)
  }

  function At<T>(column: Snapshot<T>, i: nat): Option<T> {
    if column.Some? && i < |column.value| then column.value[i] else None
  }

  function Merged<A, B>(slots: nat, cg: Snapshot<A>, cmc: Snapshot<B>): (pairs: seq<Pair<A, B>>)
    ensures |pairs| == slots
  {
    seq(slots, i requires 0 <= i < slots => Pair(At(cg, i), At(cmc, i)))
  }

  /** Writes both columns into fresh pairs, as far as each reaches. */
  method Merge<A, B>(pairs: array<Pair<A, B>>, cg: Snapshot<A>, cmc: Snapshot<B>)
    requires forall i | 0 <= i < pairs.Length :: pairs[i] == Pair(None, None)
    modifies pairs
    ensures pairs[..] == Merged(pairs.Length, cg, cmc)
  {
    for i := 0 to pairs.Length
      invariant forall j | 0 <= j < i :: pairs[j] == Pair(At(cg, j), At(cmc, j))
      invariant forall j | i <= j < pairs.Length :: pairs[j] == Pair(None, None)
    {
      if cg.Some? && i < |cg.value| {
        pairs[i] := pairs[i].(cg := cg.value[i]);
      }
      if cmc.Some? && i < |cmc.value| {
        pairs[i] := pairs[i].(cmc := cmc.value[i]);
      }
    }
  }

  /** Two providers' columns to come, and how many tokens there are. */
  datatype Comparison<A, B> = Comparison(cg: seq<seq<Option<A>>>, cmc: seq<seq<Option<B>>>, slots: nat) {

    /** Every column has a slot for each token, and no provider takes back what it has shown. */
    ghost predicate Valid() {
      WellFormed(cg, slots) && WellFormed(cmc, slots)
    }

    function Init(): State<A, B> {
      State(Start(cg), Start(cmc), false, Waiting(false, false))
    }

    predicate Enabled(s: State<A, B>, action: Action) {
      match action
      case CG(turn) => CanTake(s.cg, turn)
      case CMC(turn) => CanTake(s.cmc, turn)
      case Expire => true
      case SeeCG => s.response.Waiting? && !s.response.cgSeen && s.cg.closed
      case SeeCMC => s.response.Waiting? && !s.response.cmcSeen && s.cmc.closed
      case GiveUp => s.response.Waiting? && !(s.response.cgSeen && s.response.cmcSeen) && s.expired
      case Leave => s.response == Waiting(true, true)
      case ReadCG => s.response.Merging?
      case ReadCMC => s.response.HalfRead?
    }

    function Next(s: State<A, B>, action: Action): State<A, B>
      requires Enabled(s, action)
    {
      match action
      case CG(turn) => s.(cg := Take(s.cg, turn, s.expired))
      case CMC(turn) => s.(cmc := Take(s.cmc, turn, s.expired))
      case Expire => s.(expired := true)
      case SeeCG => s.(response := s.response.(cgSeen := true))
      case SeeCMC => s.(response := s.response.(cmcSeen := true))
      case GiveUp => s.(response := Merging)
      case Leave => s.(response := Merging)
      case ReadCG => s.(response := HalfRead(s.cg.shown))
      case ReadCMC => s.(response := Returned(s.response.cg, s.cmc.shown, Merged(slots, s.response.cg, s.cmc.shown)))
    }

    /** The schedule can be followed from the start. */
    predicate Runs(schedule: seq<Action>)
      decreases |schedule|, 0
    {
      schedule == [] ||
      (Runs(schedule[..|schedule| - 1]) && Enabled(After(schedule[..|schedule| - 1]), schedule[|schedule| - 1]))
    }

    function After(schedule: seq<Action>): State<A, B>
      requires Runs(schedule)
      decreases |schedule|, 1
    {
      if schedule == [] then Init()
      else Next(After(schedule[..|schedule| - 1]), schedule[|schedule| - 1])
    }

    /* ----- both sides of a state ----- */

    function CgSide(s: State<A, B>): Side<A> {
      Side(s.cg, s.expired, match s.response
                            case HalfRead(cg) => Some(cg)
                            case Returned(cg, _, _) => Some(cg)
                            case _ => None)
    }

    function CmcSide(s: State<A, B>): Side<B> {
      Side(s.cmc, s.expired, if s.response.Returned? then Some(s.response.cmc) else None)
    }

    function CgMove(action: Action): Move {
      match action
      case CG(turn) => Turn(turn)
      case Expire => Deadline
      case ReadCG => Read
      case _ => Elsewhere
    }

    function CmcMove(action: Action): Move {
      match action
      case CMC(turn) => Turn(turn)
      case Expire => Deadline
      case ReadCMC => Read
      case _ => Elsewhere
    }

    /** The wait ends when both providers are seen closed or the deadline has passed. */
    ghost predicate WaitInv(s: State<A, B>) {
      match s.response
      case Waiting(cgSeen, cmcSeen) => (cgSeen ==> s.cg.closed) && (cmcSeen ==> s.cmc.closed)
      case Returned(x, y, pairs) => (s.expired || (s.cg.closed && s.cmc.closed)) && pairs == Merged(slots, x, y)
      case _ => s.expired || (s.cg.closed && s.cmc.closed)
    }

    ghost predicate Inv(s: State<A, B>) {
      SideInv(cg, CgSide(s)) && SideInv(cmc, CmcSide(s)) && WaitInv(s)
    }

    /** Every step of the whole moves each side on its own terms. */
    lemma SidesMove(s: State<A, B>, action: Action)
      requires WaitInv(s) && Enabled(s, action)
      ensures WaitInv(Next(s, action))
      ensures CanMove(CgSide(s), CgMove(action)) && CgSide(Next(s, action)) == Moved(CgSide(s), CgMove(action))
      ensures CanMove(CmcSide(s), CmcMove(action)) && CmcSide(Next(s, action)) == Moved(CmcSide(s), CmcMove(action))
    {
    }

    lemma {:induction false} Reachable(schedule: seq<Action>)
      requires Runs(schedule)
      ensures Inv(After(schedule))
    {
      if schedule == [] {
        SideStarts(cg);
        SideStarts(cmc);
      } else {
        var s, action := After(schedule[..|schedule| - 1]), schedule[|schedule| - 1];
        Reachable(schedule[..|schedule| - 1]);
        StepKeeps(s, action);
      }
    }

    lemma StepKeeps(s: State<A, B>, action: Action)
      requires Inv(s) && Enabled(s, action)
      ensures Inv(Next(s, action))
    {
      SidesMove(s, action);
      SideInvKept(cg, CgSide(s), CgMove(action));
      SideInvKept(cmc, CmcSide(s), CmcMove(action));
    }

    lemma {:induction false} RunsPrefix(schedule: seq<Action>, m: nat)
      requires Runs(schedule) && m <= |schedule|
      ensures Runs(schedule[..m])
    {
      if m < |schedule| {
        RunsPrefix(schedule[..|schedule| - 1], m);
        assert schedule[..|schedule| - 1][..m] == schedule[..m];
      } else {
        assert schedule[..m] == schedule;
      }
    }

    /* ----- what a response shows ----- */

    /** In every run, whatever the interleaving: each column of a response is nil or a column its
        provider published, each slot is empty or that provider's final answer for it, and the
        response was given when both providers had finished or the deadline had passed. */
    lemma ResponseIsPartial(schedule: seq<Action>)
      requires Valid() && Runs(schedule) && After(schedule).response.Returned?
      ensures var s := After(schedule);
              && (s.response.cg.None? || s.response.cg.value in cg) &&
                  (s.response.cmc.None? || s.response.cmc.value in cmc)
              && s.response.pairs == Merged(slots, s.response.cg, s.response.cmc)
              && (forall i | 0 <= i < slots ::
                    var pair := s.response.pairs[i];
                    && (pair.cg.None? || pair.cg == Final(cg, slots)[i])
                    && (pair.cmc.None? || pair.cmc == Final(cmc, slots)[i]))
              && (s.expired || (s.cg.closed && s.cmc.closed))
    {
      Reachable(schedule);
      var s := After(schedule);
      hide After, Runs;
      ReadIsPartial(cg, slots, CgSide(s));
      ReadIsPartial(cmc, slots, CmcSide(s));
    }

    /** A provider that finishes before the deadline is shown in full, even if the deadline passes
        before the response notices. */
    lemma InTimeIsFull(schedule: seq<Action>, m: nat)
      requires Valid() && Runs(schedule) && m <= |schedule| && After(schedule).response.Returned?
      requires Runs(schedule[..m]) && !After(schedule[..m]).expired
      ensures |After(schedule).response.pairs| == slots
      ensures After(schedule[..m]).cg.closed ==>
                forall i | 0 <= i < slots :: After(schedule).response.pairs[i].cg == Final(cg, slots)[i]
      ensures After(schedule[..m]).cmc.closed ==>
                forall i | 0 <= i < slots :: After(schedule).response.pairs[i].cmc == Final(cmc, slots)[i]
    {
      var early, late := After(schedule[..m]), After(schedule);
      Reachable(schedule[..m]);
      Reachable(schedule);
      hide After, Runs;
      if early.cg.closed {
        ClosedInTime(cg, slots, CgSide(early));
        CgStaysInTime(schedule, m);
        assert Filled(slots, late.response.cg) == Final(cg, slots);
        assert forall i | 0 <= i < slots :: late.response.pairs[i].cg == Filled(slots, late.response.cg)[i];
      }
      if early.cmc.closed {
        ClosedInTime(cmc, slots, CmcSide(early));
        CmcStaysInTime(schedule, m);
        assert Filled(slots, late.response.cmc) == Final(cmc, slots);
        assert forall i | 0 <= i < slots :: late.response.pairs[i].cmc == Filled(slots, late.response.cmc)[i];
      }
    }

    lemma {:induction false} CgStaysInTime(schedule: seq<Action>, m: nat)
      requires Runs(schedule) && m <= |schedule| && Runs(schedule[..m])
      requires InTime(cg, slots, CgSide(After(schedule[..m])))
      ensures InTime(cg, slots, CgSide(After(schedule)))
    {
      if m < |schedule| {
        var front, action := schedule[..|schedule| - 1], schedule[|schedule| - 1];
        assert front[..m] == schedule[..m];
        CgStaysInTime(front, m);
        Reachable(front);
        SidesMove(After(front), action);
        InTimeKept(cg, slots, CgSide(After(front)), CgMove(action));
      } else {
        assert schedule[..m] == schedule;
      }
    }

    lemma {:induction false} CmcStaysInTime(schedule: seq<Action>, m: nat)
      requires Runs(schedule) && m <= |schedule| && Runs(schedule[..m])
      requires InTime(cmc, slots, CmcSide(After(schedule[..m])))
      ensures InTime(cmc, slots, CmcSide(After(schedule)))
    {
      if m < |schedule| {
        var front, action := schedule[..|schedule| - 1], schedule[|schedule| - 1];
        assert front[..m] == schedule[..m];
        CmcStaysInTime(front, m);
        Reachable(front);
        SidesMove(After(front), action);
        InTimeKept(cmc, slots, CmcSide(After(front)), CmcMove(action));
      } else {
        assert schedule[..m] == schedule;
      }
    }

    /** What a provider had published when its column was still to be read, the response shows. */
    lemma NothingIsLost(schedule: seq<Action>, m: nat)
      requires Valid() && Runs(schedule) && m <= |schedule| && After(schedule).response.Returned? && Runs(schedule[..m])
      ensures var early, response := After(schedule[..m]), After(schedule).response;
              && (CgSide(early).read.None? && early.cg.shown.Some? ==>
                    response.cg.Some? && KeptBy(early.cg.shown.value, response.cg.value))
              && (CmcSide(early).read.None? && early.cmc.shown.Some? ==>
                    response.cmc.Some? && KeptBy(early.cmc.shown.value, response.cmc.value))
    {
      var early, late := After(schedule[..m]), After(schedule);
      Reachable(schedule[..m]);
      hide After, Runs;
      if CgSide(early).read.None? && early.cg.shown.Some? {
        var j := ShownIsPublished(cg, CgSide(early));
        CgStaysPublished(schedule, m, j);
        AtLeastKeeps(cg, late.response.cg, j);
      }
      if CmcSide(early).read.None? && early.cmc.shown.Some? {
        var j := ShownIsPublished(cmc, CmcSide(early));
        CmcStaysPublished(schedule, m, j);
        AtLeastKeeps(cmc, late.response.cmc, j);
      }
    }

    lemma {:induction false} CgStaysPublished(schedule: seq<Action>, m: nat, j: nat)
      requires Runs(schedule) && m <= |schedule| && Runs(schedule[..m]) && j < |cg|
      requires PublishedBy(cg, j, CgSide(After(schedule[..m])))
      ensures PublishedBy(cg, j, CgSide(After(schedule)))
    {
      if m < |schedule| {
        var front, action := schedule[..|schedule| - 1], schedule[|schedule| - 1];
        assert front[..m] == schedule[..m];
        CgStaysPublished(front, m, j);
        Reachable(front);
        SidesMove(After(front), action);
        PublishedByKept(cg, j, CgSide(After(front)), CgMove(action));
      } else {
        assert schedule[..m] == schedule;
      }
    }

    lemma {:induction false} CmcStaysPublished(schedule: seq<Action>, m: nat, j: nat)
      requires Runs(schedule) && m <= |schedule| && Runs(schedule[..m]) && j < |cmc|
      requires PublishedBy(cmc, j, CmcSide(After(schedule[..m])))
      ensures PublishedBy(cmc, j, CmcSide(After(schedule)))
    {
      if m < |schedule| {
        var front, action := schedule[..|schedule| - 1], schedule[|schedule| - 1];
        assert front[..m] == schedule[..m];
        CmcStaysPublished(front, m, j);
        Reachable(front);
        SidesMove(After(front), action);
        PublishedByKept(cmc, j, CmcSide(After(front)), CmcMove(action));
      } else {
        assert schedule[..m] == schedule;
      }
    }

    /** Once returned, a response stays what it is, whatever the providers still do. */
    lemma {:induction false} ReturnedStays(schedule: seq<Action>, m: nat)
      requires Runs(schedule) && m <= |schedule| && Runs(schedule[..m]) && After(schedule[..m]).response.Returned?
      ensures After(schedule).response == After(schedule[..m]).response
    {
      if m < |schedule| {
        assert schedule[..|schedule| - 1][..m] == schedule[..m];
        ReturnedStays(schedule[..|schedule| - 1], m);
      } else {
        assert schedule[..m] == schedule;
      }
    }

    /** The response's own steps. */
    predicate Own(action: Action) {
      !action.CG? && !action.CMC? && !action.Expire?
    }

    /** Once the deadline has passed or both providers are done, the response needs no further
        step of a provider to be given. */
    lemma NeverBlocks(schedule: seq<Action>) returns (more: seq<Action>)
      requires Runs(schedule) && (After(schedule).expired || (After(schedule).cg.closed && After(schedule).cmc.closed))
      ensures |more| <= 5 && (forall a | a in more :: Own(a)) && Runs(schedule + more)
      ensures After(schedule + more).response.Returned?
    {
      hide *;
      var noticed := StopsWaiting(schedule);
      var read := ReadsBoth(schedule + noticed);
      more := noticed + read;
      assert schedule + more == (schedule + noticed) + read;
    }

    /** An absent provider never takes a step and shows nothing; with both absent the response is
        given without the deadline. */
    lemma AbsentShowsNothing(schedule: seq<Action>)
      requires Runs(schedule)
      ensures cg == [] ==> After(schedule).cg.closed && After(schedule).cg.shown == None
      ensures cmc == [] ==> After(schedule).cmc.closed && After(schedule).cmc.shown == None
      ensures forall action | action in schedule :: (cg == [] ==> !action.CG?) && (cmc == [] ==> !action.CMC?)
    {
      if cg == [] {
        CgAbsent(schedule);
      }
      if cmc == [] {
        CmcAbsent(schedule);
      }
      hide After, Runs;
    }

    lemma {:induction false} CgAbsent(schedule: seq<Action>)
      requires Runs(schedule) && cg == []
      ensures After(schedule).cg == Provider([], false, None, true) && forall action | action in schedule :: !action.CG?
    {
      if schedule != [] {
        var front, action := schedule[..|schedule| - 1], schedule[|schedule| - 1];
        CgAbsent(front);
        AbsentStep(After(front), action);
        assert schedule == front + [action];
      }
      hide Enabled, Next;
    }

    lemma {:induction false} CmcAbsent(schedule: seq<Action>)
      requires Runs(schedule) && cmc == []
      ensures After(schedule).cmc == Provider([], false, None, true)
      ensures forall action | action in schedule :: !action.CMC?
    {
      if schedule != [] {
        var front, action := schedule[..|schedule| - 1], schedule[|schedule| - 1];
        CmcAbsent(front);
        AbsentStep(After(front), action);
        assert schedule == front + [action];
      }
      hide Enabled, Next;
    }

    lemma AbsentStep(s: State<A, B>, action: Action)
      requires Enabled(s, action)
      ensures s.cg == Provider([], false, None, true) ==> !action.CG? && Next(s, action).cg == s.cg
      ensures s.cmc == Provider([], false, None, true) ==> !action.CMC? && Next(s, action).cmc == s.cmc
    {
      hide Merged;
    }

    lemma AbsentNeedNoDeadline() returns (schedule: seq<Action>)
      requires cg == [] && cmc == []
      ensures Runs(schedule) && After(schedule).response.Returned? && !After(schedule).expired
    {
      assert Runs([]) && After([]) == Init();
      schedule := NeverBlocks([]);
      assert [] + schedule == schedule;
      NotExpired(schedule);
    }

    lemma {:induction false} NotExpired(schedule: seq<Action>)
      requires Runs(schedule) && Expire !in schedule
      ensures !After(schedule).expired
    {
      if schedule != [] {
        assert forall a | a in schedule[..|schedule| - 1] :: a in schedule;
        NotExpired(schedule[..|schedule| - 1]);
      }
    }

    /** Once the deadline has passed, a provider publishes at most the one column whose check came in
        time; every later one is dropped. */
    lemma {:induction false} LateIsDropped(schedule: seq<Action>, m: nat)
      requires Runs(schedule) && m <= |schedule| && Runs(schedule[..m]) && After(schedule[..m]).expired
      ensures var early, late := After(schedule[..m]), After(schedule);
              && late.expired
              && (late.cg.shown == early.cg.shown
                  || (early.cg.passed && early.cg.ahead != [] && late.cg.shown == Some(early.cg.ahead[0])))
              && (late.cmc.shown == early.cmc.shown
                  || (early.cmc.passed && early.cmc.ahead != [] && late.cmc.shown == Some(early.cmc.ahead[0])))
    {
      CgLate(schedule, m);
      CmcLate(schedule, m);
      hide After, Runs;
    }

    lemma {:induction false} CgLate(schedule: seq<Action>, m: nat)
      requires Runs(schedule) && m <= |schedule| && Runs(schedule[..m]) && After(schedule[..m]).expired
      ensures After(schedule).expired && LateOf(After(schedule[..m]).cg, After(schedule).cg)
    {
      if m < |schedule| {
        var front := schedule[..|schedule| - 1];
        assert front[..m] == schedule[..m];
        CgLate(front, m);
      } else {
        assert schedule[..m] == schedule;
      }
    }

    lemma {:induction false} CmcLate(schedule: seq<Action>, m: nat)
      requires Runs(schedule) && m <= |schedule| && Runs(schedule[..m]) && After(schedule[..m]).expired
      ensures After(schedule).expired && LateOf(After(schedule[..m]).cmc, After(schedule).cmc)
    {
      if m < |schedule| {
        var front := schedule[..|schedule| - 1];
        assert front[..m] == schedule[..m];
        CmcLate(front, m);
      } else {
        assert schedule[..m] == schedule;
      }
    }

    lemma StopsWaiting(schedule: seq<Action>) returns (more: seq<Action>)
      requires Runs(schedule) && (After(schedule).expired || (After(schedule).cg.closed && After(schedule).cmc.closed))
      ensures |more| <= 3 && (forall a | a in more :: Own(a)) && Runs(schedule + more)
      ensures !After(schedule + more).response.Waiting?
    {
      hide After, Runs;
      more := [];
      assert schedule + more == schedule;
      if After(schedule).response.Waiting? && !After(schedule).response.cgSeen && After(schedule).cg.closed {
        more := Then(schedule, more, SeeCG);
      }
      if After(schedule).response.Waiting? && !After(schedule).response.cmcSeen && After(schedule).cmc.closed {
        more := Then(schedule, more, SeeCMC);
      }
      if After(schedule).response.Waiting? {
        more := Then(schedule, more, if After(schedule + more).response == Waiting(true, true) then Leave else GiveUp);
      }
    }

    lemma ReadsBoth(schedule: seq<Action>) returns (more: seq<Action>)
      requires Runs(schedule) && !After(schedule).response.Waiting?
      ensures |more| <= 2 && (forall a | a in more :: Own(a)) && Runs(schedule + more)
      ensures After(schedule + more).response.Returned?
    {
      hide After, Runs;
      more := [];
      assert schedule + more == schedule;
      if After(schedule).response.Merging? {
        more := Then(schedule, more, ReadCG);
      }
      if After(schedule + more).response.HalfRead? {
        more := Then(schedule, more, ReadCMC);
      }
    }

    lemma Then(schedule: seq<Action>, some: seq<Action>, action: Action) returns (more: seq<Action>)
      requires Runs(schedule + some) && Enabled(After(schedule + some), action)
      ensures more == some + [action] && Runs(schedule + more)
      ensures After(schedule + more) == Next(After(schedule + some), action)
    {
      more := some + [action];
      var longer := schedule + more;
      assert longer[..|longer| - 1] == schedule + some;
    }
  }

  /** What a provider can have come to since the deadline passed. */
  ghost predicate LateOf<T>(early: Provider<T>, late: Provider<T>) {
    if late.passed then early.passed && late.ahead == early.ahead && late.shown == early.shown
    else late.shown == early.shown || (early.passed && early.ahead != [] && late.shown == Some(early.ahead[0]))
  }

  ghost predicate WellFormed<T>(script: seq<seq<Option<T>>>, slots: nat) {
    Growing(script) && forall i | 0 <= i < |script| :: |script[i]| == slots
  }

  /** A provider's final answer; an absent provider has nothing for anyone. */
  function Final<T>(script: seq<seq<Option<T>>>, slots: nat): seq<Option<T>> {
    if script == [] then seq(slots, _ => None) else script[|script| - 1]
  }

  function Filled<T>(slots: nat, column: Snapshot<T>): (filled: seq<Option<T>>)
    ensures |filled| == slots
  {
    seq(slots, i requires 0 <= i < slots => At(column, i))
  }

  /* ---------- one side on its own ---------- */

  /** What one provider and the response's view of it come to: the response reads the column
      once, when the deadline has passed or the provider is closed. */
  datatype Side<T> = Side(p: Provider<T>, expired: bool, read: Option<Snapshot<T>>)

  datatype Move = Turn(turn: Turn) | Deadline | Read | Elsewhere

  predicate CanMove<T>(s: Side<T>, move: Move) {
    match move
    case Turn(turn) => CanTake(s.p, turn)
    case Deadline => true
    case Read => s.read.None? && (s.expired || s.p.closed)
    case Elsewhere => true
  }

  function Moved<T>(s: Side<T>, move: Move): Side<T>
    requires CanMove(s, move)
  {
    match move
    case Turn(turn) => s.(p := Take(s.p, turn, s.expired))
    case Deadline => s.(expired := true)
    case Read => s.(read := Some(s.p.shown))
    case Elsewhere => s
  }

  /** A snapshot is nil or one of the first `n` columns of the script. */
  ghost predicate Among<T>(snapshot: Snapshot<T>, script: seq<seq<Option<T>>>, n: nat)
    requires n <= |script|
  {
    snapshot.None? || exists j :: 0 <= j < n && snapshot.value == script[j]
  }

  ghost predicate SideInv<T>(script: seq<seq<Option<T>>>, s: Side<T>) {
    var k := |script| - |s.p.ahead|;
    && 0 <= k && s.p.ahead == script[k..] && (s.p.passed ==> s.p.ahead != [])
    && (s.p.closed ==> s.p.ahead == []) && Among(s.p.shown, script, k)
    && (!s.expired ==> s.p.shown == if k == 0 then None else Some(script[k - 1]))
    && (s.read.Some? ==>
          (s.expired || s.p.closed) && Among(s.read.value, script, k) && (s.expired || s.read.value == s.p.shown))
  }

  lemma SideStarts<T>(script: seq<seq<Option<T>>>)
    ensures SideInv(script, Side(Start(script), false, None))
  {
  }

  lemma SideInvKept<T>(script: seq<seq<Option<T>>>, s: Side<T>, move: Move)
    requires SideInv(script, s) && CanMove(s, move)
    ensures SideInv(script, Moved(s, move))
  {
    var k := |script| - |s.p.ahead|;
    if s.p.ahead != [] {
      assert script[k..][0] == script[k] && script[k..][1..] == script[k + 1..];
    }
  }

  /** The provider closed in time and its whole answer is what is read, if anything is. */
  ghost predicate InTime<T>(script: seq<seq<Option<T>>>, slots: nat, s: Side<T>) {
    && s.p.closed && Filled(slots, s.p.shown) == Final(script, slots)
    && (s.read.Some? ==> Filled(slots, s.read.value) == Final(script, slots))
  }

  lemma ClosedInTime<T>(script: seq<seq<Option<T>>>, slots: nat, s: Side<T>)
    requires WellFormed(script, slots) && SideInv(script, s) && s.p.closed && !s.expired
    ensures InTime(script, slots, s)
  {
    hide Growing;
  }

  lemma InTimeKept<T>(script: seq<seq<Option<T>>>, slots: nat, s: Side<T>, move: Move)
    requires SideInv(script, s) && InTime(script, slots, s) && CanMove(s, move)
    ensures InTime(script, slots, Moved(s, move))
  {
  }

  /** Column `j` has been published, and whatever is read is at least that. */
  ghost predicate PublishedBy<T>(script: seq<seq<Option<T>>>, j: nat, s: Side<T>)
    requires j < |script|
  {
    var k := |script| - |s.p.ahead|;
    && j < k && AtLeast(s.p.shown, script, j) && (s.read.Some? ==> AtLeast(s.read.value, script, j))
  }

  /** The snapshot is column `j` of the script or a later one. */
  ghost predicate AtLeast<T>(snapshot: Snapshot<T>, script: seq<seq<Option<T>>>, j: nat) {
    exists i :: j <= i < |script| && snapshot == Some(script[i])
  }

  lemma PublishedByKept<T>(script: seq<seq<Option<T>>>, j: nat, s: Side<T>, move: Move)
    requires SideInv(script, s) && j < |script| && PublishedBy(script, j, s) && CanMove(s, move)
    ensures PublishedBy(script, j, Moved(s, move))
  {
    var k := |script| - |s.p.ahead|;
    if s.p.ahead != [] {
      assert script[k..][0] == script[k];
      assert AtLeast(Some(script[k]), script, j);
    }
  }

  lemma ShownIsPublished<T>(script: seq<seq<Option<T>>>, s: Side<T>) returns (j: nat)
    requires SideInv(script, s) && s.read.None? && s.p.shown.Some?
    ensures j < |script| && s.p.shown == Some(script[j]) && PublishedBy(script, j, s)
  {
    j :| 0 <= j < |script| - |s.p.ahead| && s.p.shown.value == script[j];
  }

  lemma AtLeastKeeps<T>(script: seq<seq<Option<T>>>, snapshot: Snapshot<T>, j: nat)
    requires Growing(script) && j < |script| && AtLeast(snapshot, script, j)
    ensures snapshot.Some? && KeptBy(script[j], snapshot.value)
  {
    hide KeptBy;
  }

  /** What the response reads is nil or a published column, and each of its slots is empty or
      final. */
  lemma ReadIsPartial<T>(script: seq<seq<Option<T>>>, slots: nat, s: Side<T>)
    requires WellFormed(script, slots) && SideInv(script, s) && s.read.Some?
    ensures s.read.value.None? || s.read.value.value in script
    ensures forall i | 0 <= i < slots :: At(s.read.value, i).None? || At(s.read.value, i) == Final(script, slots)[i]
  {
    if s.read.value.Some? {
      var j :| 0 <= j < |script| - |s.p.ahead| && s.read.value.value == script[j];
      assert KeptBy(script[j], script[|script| - 1]);
    }
  }
}
