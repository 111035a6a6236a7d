/**
 once() where there are no atomic operations: the flag is read and set in two steps.  Init may run
 more than once, and this says exactly when.
 */
module OnceRace {

  /** As in once() with atomics, but that a thread has read the flag, as was, before it sets it. */
  datatype Pc = Loading | Testing | Setting(was: bool) | Spinning | Starting | Storing | Returned

  datatype State = State(begun: bool, done: bool, inits: nat, pcs: seq<Pc>)

  function Initial(n: nat): State {
    State(false, false, 0, seq(n, _ => Loading))
  }

  /** What thread i does next. */
  function Next(s: State, i: nat): State
    requires i < |s.pcs|
  {
    match s.pcs[i]
    case Loading => s.(pcs := s.pcs[i := if s.done then Returned else Testing])
    case Testing => s.(pcs := s.pcs[i := Setting(s.begun)])
    case Setting(was) => s.(begun := true, pcs := s.pcs[i := if was then Spinning else Starting])
    case Spinning => if s.done then s.(pcs := s.pcs[i := Returned]) else s
    case Starting => s.(inits := s.inits + 1, pcs := s.pcs[i := Storing])
    case Storing => s.(done := true, pcs := s.pcs[i := Returned])
    case Returned => s
  }

  function Turn(s: State, i: nat): State {
    if i < |s.pcs| then Next(s, i) else s
  }

  /** The state after the threads have taken turns as given. */
  function Run(s: State, turns: seq<nat>): State
    decreases |turns|
  {
    if turns == [] then s else Run(Turn(s, turns[0]), turns[1..])
  }

  /** The flag has been read clear, and init is still to be run for it. */
  predicate Owes(pc: Pc) {
    pc == Setting(false) || pc == Starting
  }

  /** How many threads are to run init. */
  function Owing(pcs: seq<Pc>): nat {
    if pcs == [] then 0 else Owing(pcs[1..]) + if Owes(pcs[0]) then 1 else 0
  }

  /** Thread i reads the flag clear while another thread that did so has not set it. */
  ghost predicate Race(s: State, i: nat) {
    i < |s.pcs| && s.pcs[i] == Testing && !s.begun &&
        exists j :: 0 <= j < |s.pcs| && j != i && s.pcs[j] == Setting(false)
  }

  /** That happens at some turn. */
  ghost predicate Raced(s: State, turns: seq<nat>)
    decreases |turns|
  {
    turns != [] && (Race(s, turns[0]) || Raced(Turn(s, turns[0]), turns[1..]))
  }

  // ---------- what every step keeps ----------

  /** While the flag is clear nobody is past it; nobody returns before init has run. */
  ghost predicate Sound(s: State) {
    && (!s.begun ==> s.inits == 0 && !s.done && forall j :: 0 <= j < |s.pcs| ==>
        s.pcs[j] in {Loading, Testing, Setting(false)})
    && (s.done ==> s.inits >= 1)
    && (forall j :: 0 <= j < |s.pcs| && s.pcs[j] in {Storing, Returned} ==> s.inits >= 1)
  }

  lemma {:induction false} OwingPut(pcs: seq<Pc>, i: nat, pc: Pc)
    requires i < |pcs|
    ensures Owing(pcs[i := pc]) + (if Owes(pcs[i]) then 1 else 0) == Owing(pcs) + if Owes(pc) then 1 else 0
  {
    if i == 0 {
      assert pcs[i := pc][1..] == pcs[1..];
    } else {
      OwingPut(pcs[1..], i - 1, pc);
      assert pcs[i := pc][1..] == pcs[1..][i - 1 := pc];
    }
  }

  /** Runs of init, done and owed. */
  function Total(s: State): nat {
    s.inits + Owing(s.pcs)
  }

  /** The total grows just when a thread reads the flag clear. */
  lemma StepTotal(s: State, i: nat)
    requires Sound(s)
    ensures Sound(Turn(s, i))
    ensures Total(Turn(s, i)) == Total(s) + if i < |s.pcs| && s.pcs[i] == Testing && !s.begun then 1 else 0
  {
    if i < |s.pcs| {
      OwingPut(s.pcs, i, Next(s, i).pcs[i]);
      assert s.pcs[i := s.pcs[i]] == s.pcs;
    }
  }

  lemma {:induction false} RunTotal(s: State, turns: seq<nat>)
    requires Sound(s)
    ensures Sound(Run(s, turns)) && Total(Run(s, turns)) >= Total(s)
    decreases |turns|
  {
    if turns != [] {
      StepTotal(s, turns[0]);
      RunTotal(Turn(s, turns[0]), turns[1..]);
    }
  }

  lemma {:induction false} SomeOwes(pcs: seq<Pc>) returns (j: nat)
    requires Owing(pcs) > 0
    ensures j < |pcs| && Owes(pcs[j])
  {
    if Owes(pcs[0]) {
      j := 0;
    } else {
      j := SomeOwes(pcs[1..]);
      j := j + 1;
    }
  }

  lemma {:induction false} OwesCounted(pcs: seq<Pc>, j: nat)
    requires j < |pcs| && Owes(pcs[j])
    ensures Owing(pcs) > 0
  {
    if j > 0 {
      OwesCounted(pcs[1..], j - 1);
    }
  }

  lemma {:induction false} InitialTotal(n: nat)
    ensures Sound(Initial(n)) && Total(Initial(n)) == 0
  {
    if n > 0 {
      InitialTotal(n - 1);
      assert Initial(n).pcs[1..] == Initial(n - 1).pcs;
    }
  }

  /** From at most one run, done or owed, there come to be two just by a race. */
  lemma {:induction false} RacedIff(s: State, turns: seq<nat>)
    requires Sound(s) && Total(s) <= 1
    ensures Total(Run(s, turns)) >= 2 <==> Raced(s, turns)
    decreases |turns|
  {
    if turns != [] {
      var i := turns[0];
      StepTotal(s, i);
      RunTotal(Turn(s, i), turns[1..]);
      if i < |s.pcs| && s.pcs[i] == Testing && !s.begun {
        RaceIff(s, i);
      }
      if Total(Turn(s, i)) <= 1 {
        RacedIff(Turn(s, i), turns[1..]);
      }
    }
  }

  lemma RaceIff(s: State, i: nat)
    requires Sound(s) && i < |s.pcs| && s.pcs[i] == Testing && !s.begun
    ensures Race(s, i) <==> Total(s) >= 1
  {
    if Owing(s.pcs) > 0 {
      var j := SomeOwes(s.pcs);
    }
    if Race(s, i) {
      var j :| 0 <= j < |s.pcs| && j != i && s.pcs[j] == Setting(false);
      OwesCounted(s.pcs, j);
    }
  }

  // ---------- when init runs more than once ----------

  lemma {:induction false} RunConcat(s: State, a: seq<nat>, b: seq<nat>)
    ensures Run(s, a + b) == Run(Run(s, a), b)
    decreases |a|
  {
    if a == [] {
      assert a + b == b;
    } else {
      assert (a + b)[1..] == a[1..] + b;
      RunConcat(Turn(s, a[0]), a[1..], b);
    }
  }

  function Steps(pc: Pc): nat {
    if pc == Setting(false) then 2 else if pc == Starting then 1 else 0
  }

  function AllSteps(pcs: seq<Pc>): nat {
    if pcs == [] then 0 else Steps(pcs[0]) + AllSteps(pcs[1..])
  }

  lemma {:induction false} StepsPut(pcs: seq<Pc>, i: nat, pc: Pc)
    requires i < |pcs|
    ensures AllSteps(pcs[i := pc]) + Steps(pcs[i]) == AllSteps(pcs) + Steps(pc)
  {
    if i == 0 {
      assert pcs[i := pc][1..] == pcs[1..];
    } else {
      StepsPut(pcs[1..], i - 1, pc);
      assert pcs[i := pc][1..] == pcs[1..][i - 1 := pc];
    }
  }

  /** The threads that are to run init can do so, without anyone reading the flag. */
  lemma {:induction false} Settle(s: State) returns (more: seq<nat>)
    requires Sound(s)
    ensures Run(s, more).inits == Total(s) && !Raced(s, more)
    decreases AllSteps(s.pcs)
  {
    more := [];
    if Owing(s.pcs) > 0 {
      var j := SomeOwes(s.pcs);
      StepTotal(s, j);
      StepsPut(s.pcs, j, Next(s, j).pcs[j]);
      var rest := Settle(Turn(s, j));
      more := [j] + rest;
      assert more[1..] == rest;
    }
  }

  /**
   Init runs, or will be run, more than once just if some thread reads the flag clear between another
   thread's reading it clear and setting it.  The threads can then go on so that it has been.
   */
  lemma TwiceIff(n: nat, turns: seq<nat>)
    ensures (exists more :: Run(Initial(n), turns + more).inits > 1 && !Raced(Run(Initial(n), turns), more)) <==>
            Raced(Initial(n), turns)
  {
    var s0 := Initial(n);
    var s := Run(s0, turns);
    InitialTotal(n);
    RacedIff(s0, turns);
    RunTotal(s0, turns);
    if Raced(s0, turns) {
      var more := Settle(s);
      RunConcat(s0, turns, more);
    } else {
      forall more | !Raced(s, more) ensures Run(s0, turns + more).inits <= 1 {
        RacedIff(s, more);
        RunConcat(s0, turns, more);
      }
    }
  }

  /** Two threads in step: each reads the flag before the other sets it, and init runs twice. */
  lemma TwoInStep()
    ensures Run(Initial(2), [0, 1, 0, 1, 0, 1, 0, 1]).inits == 2
  {
    var s := Initial(2);
    assert s.pcs == [Loading, Loading];
    var a := Turn(Turn(s, 0), 1);
    assert a.pcs == [Testing, Testing];
    var b := Turn(Turn(a, 0), 1);
    assert b.pcs == [Setting(false), Setting(false)];
    var c := Turn(Turn(b, 0), 1);
    assert c.pcs == [Starting, Starting];
    var d := Turn(Turn(c, 0), 1);
    Pair(s, [0, 1, 0, 1, 0, 1]);
    Pair(a, [0, 1, 0, 1]);
    Pair(b, [0, 1]);
    Pair(c, []);
  }

  lemma Pair(s: State, rest: seq<nat>)
    ensures Run(s, [0, 1] + rest) == Run(Turn(Turn(s, 0), 1), rest)
  {
    RunConcat(s, [0, 1], rest);
    assert [0, 1][1..] == [1] && [1][1..] == [];
  }

  /** Whatever happens, init has run before a thread returns, and it has run more than once only after a race. */
  lemma OnceUnlessRaced(n: nat, turns: seq<nat>)
    ensures var s := Run(Initial(n), turns);
            && (s.inits > 1 ==> Raced(Initial(n), turns))
            && forall j :: 0 <= j < |s.pcs| && s.pcs[j] == Returned ==> s.inits >= 1
  {
    InitialTotal(n);
    RacedIff(Initial(n), turns);
    RunTotal(Initial(n), turns);
  }

  /** Thread i is the only one that has begun. */
  ghost predicate Alone(s: State, i: nat) {
    && i < |s.pcs| && (forall j :: 0 <= j < |s.pcs| && j != i ==> s.pcs[j] == Loading)
    && match s.pcs[i]
       case Loading => !s.begun && !s.done && s.inits == 0
       case Testing => !s.begun && !s.done && s.inits == 0
       case Setting(was) => !was && !s.begun && !s.done && s.inits == 0
       case Spinning => false
       case Starting => !s.done && s.inits == 0
       case Storing => !s.done && s.inits == 1
       case Returned => s.done && s.inits == 1
  }

  lemma {:induction false} RunAlone(s: State, i: nat, turns: seq<nat>)
    requires Alone(s, i) && forall k :: 0 <= k < |turns| ==> turns[k] == i
    ensures Alone(Run(s, turns), i) && !Raced(s, turns) && |Run(s, turns).pcs| == |s.pcs|
    decreases |turns|
  {
    if turns != [] {
      RunAlone(Turn(s, i), i, turns[1..]);
    }
  }

  /** Once init is done, nobody gets to the flag. */
  ghost predicate Finished(s: State) {
    s.done && s.inits == 1 && forall j :: 0 <= j < |s.pcs| ==> s.pcs[j] == Loading || s.pcs[j] == Returned
  }

  lemma {:induction false} RunFinished(s: State, turns: seq<nat>)
    requires Finished(s)
    ensures Finished(Run(s, turns)) && !Raced(s, turns)
    decreases |turns|
  {
    if turns != [] {
      RunFinished(Turn(s, turns[0]), turns[1..]);
    }
  }

  lemma {:induction false} RacedConcat(s: State, a: seq<nat>, b: seq<nat>)
    ensures Raced(s, a + b) <==> Raced(s, a) || Raced(Run(s, a), b)
    decreases |a|
  {
    if a == [] {
      assert a + b == b;
    } else {
      assert (a + b)[1..] == a[1..] + b;
      RacedConcat(Turn(s, a[0]), a[1..], b);
    }
  }

  /** A caller can see to it: if one call has returned before any other begins, init runs once. */
  lemma FirstAlone(n: nat, i: nat, first: seq<nat>, rest: seq<nat>)
    requires i < n && forall k :: 0 <= k < |first| ==> first[k] == i
    ensures |Run(Initial(n), first).pcs| == n
    ensures Run(Initial(n), first).pcs[i] == Returned ==>
      !Raced(Initial(n), first + rest) && Run(Initial(n), first + rest).inits == 1
  {
    var s := Initial(n);
    RunAlone(s, i, first);
    RunConcat(s, first, rest);
    RacedConcat(s, first, rest);
    if Run(s, first).pcs[i] == Returned {
      RunFinished(Run(s, first), rest);
    }
  }
}
