/**
 once(): any number of threads ask for the CRC tables to be made; one of them makes them.

 The atomic operations on the two flags are the steps of a state machine; between them the threads
 may be interleaved in any way.
 */
module Once {

  /**
   Where a thread is: before the load of done, before the test-and-set, spinning, before init, before the store, back.
   */
  datatype Pc = Loading | Testing | Spinning | Starting | Storing | Returned

  /** The flags, how often init has run, and the threads. */
  datatype State = State(begun: bool, done: bool, inits: nat, pcs: seq<Pc>)

  function Initial(n: nat): State {
    State(false, false, 0, seq(n, _ => Loading))
  }

  /** What thread i does next. */
  function Next(s: State, i: nat): State
    requires i < |s.pcs|
  {
    match s.pcs[i]
    case Loading => s.(pcs := s.pcs[i := if s.done then Returned else Testing])
    case Testing => s.(begun := true, pcs := s.pcs[i := if s.begun then Spinning else Starting])
    case Spinning => if s.done then s.(pcs := s.pcs[i := Returned]) else s
    case Starting => s.(inits := s.inits + 1, pcs := s.pcs[i := Storing])
    case Storing => s.(done := true, pcs := s.pcs[i := Returned])
    case Returned => s
  }

  /** The state after the threads have taken turns as given. */
  function Run(s: State, turns: seq<nat>): State
    decreases |turns|
  {
    if turns == [] then s
    else Run(if turns[0] < |s.pcs| then Next(s, turns[0]) else s, turns[1..])
  }

  predicate Inside(pc: Pc) {
    pc == Starting || pc == Storing
  }

  /** At most one thread has got through the test-and-set, and the flags tell how far it is. */
  ghost predicate Owned(s: State, owner: nat) {
    && (forall j :: 0 <= j < |s.pcs| && j != owner ==> !Inside(s.pcs[j]))
    && (forall j :: 0 <= j < |s.pcs| && s.pcs[j] == Returned ==> s.done)
    && (forall j :: 0 <= j < |s.pcs| && s.pcs[j] == Spinning ==> s.begun)
    && if !s.begun then !s.done && s.inits == 0 && (owner < |s.pcs| ==> !Inside(s.pcs[owner]))
       else owner < |s.pcs| &&
            match s.pcs[owner]
            case Starting => !s.done && s.inits == 0
            case Storing => !s.done && s.inits == 1
            case Returned => s.done && s.inits == 1
            case _ => false
  }

  lemma StepOwned(s: State, owner: nat, i: nat) returns (owner': nat)
    requires Owned(s, owner) && i < |s.pcs|
    ensures Owned(Next(s, i), owner')
  {
    owner' := if s.pcs[i] == Testing && !s.begun then i else owner;
  }

  lemma {:induction false} RunOwned(s: State, owner: nat, turns: seq<nat>) returns (owner': nat)
    requires Owned(s, owner)
    ensures Owned(Run(s, turns), owner')
    decreases |turns|
  {
    owner' := owner;
    if turns != [] {
      var s', o := s, owner;
      if turns[0] < |s.pcs| {
        o := StepOwned(s, owner, turns[0]);
        s' := Next(s, turns[0]);
      }
      owner' := RunOwned(s', o, turns[1..]);
    }
  }

  /** However the threads are interleaved, init runs at most once, and before any thread returns. */
  lemma ExactlyOnce(n: nat, turns: seq<nat>)
    ensures var s := Run(Initial(n), turns);
            s.inits <= 1 && forall i :: 0 <= i < |s.pcs| && s.pcs[i] == Returned ==> s.inits == 1
  {
    var owner := RunOwned(Initial(n), 0, turns);
  }

  /** How many steps a thread has still to take. */
  function Left(pc: Pc): nat {
    match pc
    case Loading => 4
    case Testing => 3
    case Starting => 2
    case Storing => 1
    case Spinning => 1
    case Returned => 0
  }

  function AllLeft(pcs: seq<Pc>): nat {
    if pcs == [] then 0 else Left(pcs[0]) + AllLeft(pcs[1..])
  }

  lemma {:induction false} LeftLess(pcs: seq<Pc>, i: nat, pc: Pc)
    requires i < |pcs| && Left(pc) < Left(pcs[i])
    ensures AllLeft(pcs[i := pc]) < AllLeft(pcs)
  {
    if i > 0 {
      LeftLess(pcs[1..], i - 1, pc);
      assert pcs[i := pc][1..] == pcs[1..][i - 1 := pc];
    } else {
      assert pcs[i := pc][1..] == pcs[1..];
    }
  }

  /** No thread spins for ever: until all are back, some thread has a step that brings the end nearer. */
  lemma NoDeadlock(s: State, owner: nat, i: nat) returns (j: nat)
    requires Owned(s, owner) && i < |s.pcs| && s.pcs[i] != Returned
    ensures j < |s.pcs| && AllLeft(Next(s, j).pcs) < AllLeft(s.pcs)
  {
    j := if s.pcs[i] == Spinning && !s.done then owner else i;
    LeftLess(s.pcs, j, Next(s, j).pcs[j]);
  }
}
