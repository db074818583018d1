/**
 Repeated pruning with no other activity: what one round does, and where the rounds end.
 */
module PruneConvergence {
  import opened Sets
  import opened Wrappers
  import opened Contracts
  import opened StateModel
  import opened StateInvariant
  import opened Protocol
  import opened ProtocolInvariant

  /** A generation that is kept for its own sake. */
  predicate IsRoot(db: Db, g: Uuid) {
    g in db.generations && match db.generations[g].status
    case Staging => IsActive(db, db.generations[g].owner)
    case Ready => IsCurrent(db, g) || IsPinned(db, g)
    case Deleting => false
  }

  /** A path along base links that starts at a root. */
  ghost predicate BaseChain(db: Db, chain: seq<Uuid>) {
    && chain != [] && IsRoot(db, chain[0])
    && forall i | 0 <= i < |chain| - 1 :: chain[i] in db.generations && db.generations[chain[i]].base == Some(chain[i + 1])
  }

  ghost predicate ReachedBy(db: Db, g: Uuid, chain: seq<Uuid>) {
    BaseChain(db, chain) && chain[|chain| - 1] == g
  }

  ghost predicate Reachable(db: Db, g: Uuid) {
    exists chain :: ReachedBy(db, g, chain)
  }

  /** One whole prune: the chosen rows and both directories of each are gone. */
  function PruneRound(w: World, chosen: set<Uuid>): World {
    w.(db := w.db.(generations := w.db.generations - chosen), temp := w.temp - chosen, final := w.final - chosen)
  }

  // ---- The events of one undisturbed prune -----------------------------------------------------

  /** Two erasures are as many as a generation ever needs; one with nothing left to erase does nothing. */
  function EraseEvents(call: nat, n: nat): seq<Event> {
    if n == 0 then []
    else [PruneLook(call), PruneLook(call), PruneErase(call), PruneErase(call), PruneNext(call)] + EraseEvents(call, n - 1)
  }

  function PruneEvents(call: nat, order: seq<Uuid>): seq<Event> {
    [Event.PruneMark(call, order)] + EraseEvents(call, |order|) + [Event.PruneDelete(call)]
  }

  lemma {:induction false} RunAppend(w: World, a: seq<Event>, b: seq<Event>)
    ensures Run(w, a + b) == Run(Run(w, a), b)
    decreases a
  {
    hide Step;
    if a == [] {
      assert a + b == b;
    } else {
      assert (a + b)[0] == a[0] && (a + b)[1..] == a[1..] + b;
      RunAppend(Step(w, a[0]), a[1..], b);
    }
  }

  function Seen(w: World, id: Uuid): seq<Side> {
    (if id in w.temp then [TempSide] else []) + (if id in w.final then [FinalSide] else [])
  }

  lemma LookSteps(w: World, call: nat, todo: seq<Uuid>, removed: seq<Uuid>)
    requires todo != [] && call in w.calls && w.calls[call] == Pruning(todo, Unseen, removed)
    ensures Step(w, PruneLook(call)) == w.(calls := w.calls[call := Pruning(todo, TempSeen(todo[0] in w.temp), removed)])
  {
  }

  lemma LooksAgain(w: World, call: nat, todo: seq<Uuid>, found: bool, removed: seq<Uuid>)
    requires todo != [] && call in w.calls && w.calls[call] == Pruning(todo, TempSeen(found), removed)
    ensures var paths := (if found then [TempSide] else []) + (if todo[0] in w.final then [FinalSide] else []);
            Step(w, PruneLook(call)) == w.(calls := w.calls[call := Pruning(todo, Paths(paths), removed)])
  {
  }

  lemma EraseSteps(w: World, call: nat, todo: seq<Uuid>, paths: seq<Side>, removed: seq<Uuid>)
    requires todo != [] && call in w.calls && w.calls[call] == Pruning(todo, Paths(paths), removed)
    ensures Step(w, PruneErase(call))
            == if paths == [] then w
               else w.(temp := if paths[0].TempSide? then w.temp - {todo[0]} else w.temp,
                       final := if paths[0].TempSide? then w.final else w.final - {todo[0]},
                       calls := w.calls[call := Pruning(todo, Paths(paths[1..]), removed)])
  {
  }

  lemma NextSteps(w: World, call: nat, todo: seq<Uuid>, removed: seq<Uuid>)
    requires todo != [] && call in w.calls && w.calls[call] == Pruning(todo, Paths([]), removed)
    ensures Step(w, PruneNext(call)) == w.(calls := w.calls[call := Pruning(todo[1..], Unseen, removed + [todo[0]])])
  {
  }

  lemma LookBoth(w: World, call: nat, todo: seq<Uuid>, removed: seq<Uuid>)
    requires todo != [] && call in w.calls && w.calls[call] == Pruning(todo, Unseen, removed)
    ensures Step(Step(w, PruneLook(call)), PruneLook(call))
         == w.(calls := w.calls[call := Pruning(todo, Paths(Seen(w, todo[0])), removed)])
  {
    hide Step;
    LookSteps(w, call, todo, removed);
    LooksAgain(Step(w, PruneLook(call)), call, todo, todo[0] in w.temp, removed);
  }

  lemma EraseOne(w: World, call: nat, todo: seq<Uuid>, removed: seq<Uuid>)
    requires todo != [] && call in w.calls && w.calls[call] == Pruning(todo, Unseen, removed)
    ensures Run(w, [PruneLook(call), PruneLook(call), PruneErase(call), PruneErase(call), PruneNext(call)])
            == w.(temp := w.temp - {todo[0]}, final := w.final - {todo[0]},
                  calls := w.calls[call := Pruning(todo[1..], Unseen, removed + [todo[0]])])
  {
    hide Step, Run;
    var id := todo[0];
    var paths := Seen(w, id);
    LookBoth(w, call, todo, removed);
    var w1 := Step(Step(w, PruneLook(call)), PruneLook(call));
    EraseSteps(w1, call, todo, paths, removed);
    var w2 := Step(w1, PruneErase(call));
    var rest := if paths == [] then [] else paths[1..];
    EraseSteps(w2, call, todo, rest, removed);
    assert rest != [] ==> rest[1..] == [];
    var w3 := Step(w2, PruneErase(call));
    assert id !in w.temp ==> w.temp - {id} == w.temp;
    assert id !in w.final ==> w.final - {id} == w.final;
    NextSteps(w3, call, todo, removed);
    RunFive(w, PruneLook(call), PruneLook(call), PruneErase(call), PruneErase(call), PruneNext(call));
  }

  lemma RunFour(w: World, a: Event, b: Event, c: Event, d: Event)
    ensures Run(w, [a, b, c, d]) == Step(Step(Step(Step(w, a), b), c), d)
  {
    hide Step;
    assert [a, b, c, d][1..] == [b, c, d] && [b, c, d][1..] == [c, d] && [c, d][1..] == [d] && [d][1..] == [];
    assert Run(w, [a, b, c, d]) == Run(Step(w, a), [b, c, d]);
    assert Run(Step(w, a), [b, c, d]) == Run(Step(Step(w, a), b), [c, d]);
    assert Run(Step(Step(w, a), b), [c, d]) == Run(Step(Step(Step(w, a), b), c), [d]);
    RunOne(Step(Step(Step(w, a), b), c), d);
  }

  lemma RunFive(w: World, a: Event, b: Event, c: Event, d: Event, e: Event)
    ensures Run(w, [a, b, c, d, e]) == Step(Step(Step(Step(Step(w, a), b), c), d), e)
  {
    hide Step;
    assert [a, b, c, d, e][1..] == [b, c, d, e];
    RunFour(Step(w, a), b, c, d, e);
  }

  lemma {:induction false} EraseAll(w: World, call: nat, todo: seq<Uuid>, removed: seq<Uuid>)
    requires call in w.calls && w.calls[call] == Pruning(todo, Unseen, removed)
    ensures Run(w, EraseEvents(call, |todo|))
            == w.(temp := w.temp - Elements(todo), final := w.final - Elements(todo),
                  calls := w.calls[call := Pruning([], Unseen, removed + todo)])
    decreases todo
  {
    hide Step;
    if todo != [] {
      var one := [PruneLook(call), PruneLook(call), PruneErase(call), PruneErase(call), PruneNext(call)];
      EraseOne(w, call, todo, removed);
      var next := Run(w, one);
      RunAppend(w, one, EraseEvents(call, |todo| - 1));
      EraseAll(next, call, todo[1..], removed + [todo[0]]);
      assert removed + [todo[0]] + todo[1..] == removed + todo;
    } else {
      assert removed + todo == removed;
      assert w.calls[call := Pruning([], Unseen, removed)] == w.calls;
      assert w.temp - {} == w.temp && w.final - {} == w.final;
    }
  }

  lemma MarkSteps(w: World, call: nat, order: seq<Uuid>)
    requires Inv(w) && call !in w.calls && Elements(order) <= Candidates(w.db)
    ensures var chosen := Elements(order);
            && StateModel.PruneMark(w.db, chosen).Ok?
            && Step(w, Event.PruneMark(call, order))
               == w.(db := StateModel.PruneMark(w.db, chosen).value, calls := w.calls[call := Pruning(order, Unseen, [])])
  {
    PruneMarkKeeps(w.db, Elements(order));
  }

  lemma DeleteSteps(w: World, call: nat, todo: seq<Uuid>, look: Look, removed: seq<Uuid>)
    requires call in w.calls && w.calls[call] == Pruning(todo, look, removed)
    requires Consistent(w.db) && forall g <- removed :: Doomed(w.db, g)
    ensures Step(w, Event.PruneDelete(call))
            == w.(db := w.db.(generations := map g | g in w.db.generations && g !in removed :: w.db.generations[g]), calls := w.calls - {call})
  {
    PruneDeleteKeeps(w.db, removed);
  }

  /** Marking, erasing and deleting with nothing in between is exactly one round. */
  lemma UndisturbedPruneIsARound(w: World, call: nat, order: seq<Uuid>)
    requires Inv(w) && call !in w.calls && Elements(order) <= Candidates(w.db)
    ensures Run(w, PruneEvents(call, order)) == PruneRound(w, Elements(order))
  {
    hide Step, Run, Inv, Consistent;
    var chosen := Elements(order);
    var mark, erase, delete := [Event.PruneMark(call, order)], EraseEvents(call, |order|), [Event.PruneDelete(call)];
    assert PruneEvents(call, order) == mark + (erase + delete);
    RunOne(w, mark[0]);
    MarkSteps(w, call, order);
    StepKeeps(w, mark[0]);
    var marked := Step(w, mark[0]);
    MarkedIsDoomed(marked, call);
    RunAppend(w, mark, erase + delete);
    EraseAll(marked, call, order, []);
    assert [] + order == order;
    RunAppend(marked, erase, delete);
    var erased := Run(marked, erase);
    RunOne(erased, delete[0]);
    DeleteSteps(erased, call, [], Unseen, order);
    var deleted := Step(erased, delete[0]);
    assert deleted.calls == w.calls;
    assert deleted.db.generations == w.db.generations - chosen;
    assert deleted == PruneRound(w, chosen);
  }

  lemma MarkedIsDoomed(w: World, call: nat)
    requires Inv(w) && call in w.calls && w.calls[call].Pruning?
    ensures Consistent(w.db) && forall g <- w.calls[call].todo :: Doomed(w.db, g)
  {
    assert CallOk(w, w.calls[call]);
  }

  lemma RunOne(w: World, e: Event)
    ensures Run(w, [e]) == Step(w, e)
  {
    hide Step;
    assert [e][1..] == [];
    assert Run(Step(w, e), []) == Step(w, e);
  }

  // ---- Where the rounds end --------------------------------------------------------------------

  /** Reachability from the roots does not notice a round. */
  lemma RoundKeepsReachable(w: World, chosen: set<Uuid>)
    requires Inv(w) && chosen <= Candidates(w.db)
    ensures var db := PruneRound(w, chosen).db;
            && (forall g :: IsRoot(db, g) <==> IsRoot(w.db, g))
            && (forall g :: Reachable(db, g) <==> Reachable(w.db, g))
            && (forall g <- chosen :: !Reachable(w.db, g))
            && (forall k <- db.current :: db.current[k] !in chosen)
  {
    hide Inv, PruneRound, Candidates, IsRoot;
    var db := PruneRound(w, chosen).db;
    RoundKeepsRoots(w, chosen);
    forall chain ensures BaseChain(db, chain) <==> BaseChain(w.db, chain) {
      RoundKeepsChain(w, chosen, chain);
    }
    forall g ensures Reachable(db, g) <==> Reachable(w.db, g) {
      if Reachable(w.db, g) {
        var chain :| ReachedBy(w.db, g, chain);
        assert ReachedBy(db, g, chain);
      }
      if Reachable(db, g) {
        var chain :| ReachedBy(db, g, chain);
        assert ReachedBy(w.db, g, chain);
      }
    }
    forall g <- chosen ensures !Reachable(w.db, g) {
      if Reachable(w.db, g) {
        var chain :| ReachedBy(w.db, g, chain);
        CandidateIsChosen(w, chosen, g);
        ChainHasNoCandidate(w.db, chain, |chain| - 1);
      }
    }
  }

  lemma CandidateIsChosen(w: World, chosen: set<Uuid>, g: Uuid)
    requires chosen <= Candidates(w.db) && g in chosen
    ensures IsCandidate(w.db, g)
  {
  }

  lemma RoundKeepsRoots(w: World, chosen: set<Uuid>)
    requires Inv(w) && chosen <= Candidates(w.db)
    ensures var db := PruneRound(w, chosen).db;
            (forall g :: IsRoot(db, g) <==> IsRoot(w.db, g)) && (forall k <- db.current :: db.current[k] !in chosen)
  {
    var db := PruneRound(w, chosen).db;
    forall g ensures IsRoot(db, g) <==> IsRoot(w.db, g) {
      if g in chosen { assert IsCandidate(w.db, g); }
    }
    forall k <- db.current ensures db.current[k] !in chosen {
      if db.current[k] in chosen { CurrentIsNoCandidate(w, k); }
    }
  }

  lemma CurrentIsNoCandidate(w: World, k: Key)
    requires Inv(w) && k in w.db.current
    ensures !IsCandidate(w.db, w.db.current[k])
  {
    assert CurrentOk(w.db);
    assert IsCurrent(w.db, w.db.current[k]);
  }

  lemma RoundKeepsChain(w: World, chosen: set<Uuid>, chain: seq<Uuid>)
    requires Inv(w) && chosen <= Candidates(w.db)
    ensures BaseChain(PruneRound(w, chosen).db, chain) <==> BaseChain(w.db, chain)
  {
    RoundKeepsRoots(w, chosen);
    hide Inv, IsRoot, Candidates;
    if BaseChain(w.db, chain) {
      forall i | 0 <= i < |chain| ensures chain[i] !in chosen {
        ChainHasNoCandidate(w.db, chain, i);
        if chain[i] in chosen { CandidateIsChosen(w, chosen, chain[i]); }
      }
    }
  }

  lemma ChainHasNoCandidate(db: Db, chain: seq<Uuid>, i: nat)
    requires BaseChain(db, chain) && i < |chain|
    ensures !IsCandidate(db, chain[i])
  {
    if i > 0 {
      assert chain[i - 1] in db.generations && db.generations[chain[i - 1]].base == Some(chain[i]);
      assert IsBase(db, chain[i]);
    }
  }

  /** When no candidate is left, every row is reachable: base links only lead to older generations. */
  lemma {:induction false} SettledRowsAreReachable(w: World, j: nat)
    requires Inv(w) && Candidates(w.db) == {} && j < |w.issued| && w.issued[j] in w.db.generations
    ensures Reachable(w.db, w.issued[j])
    decreases |w.issued| - j
  {
    hide Inv;
    var g := w.issued[j];
    assert !IsCandidate(w.db, g) by { assert g !in Candidates(w.db); }
    if IsBase(w.db, g) {
      var h :| h in w.db.generations && w.db.generations[h].base == Some(g);
      var i := DerivedIsLater(w, j, h);
      SettledRowsAreReachable(w, i);
      var chain :| ReachedBy(w.db, h, chain);
      assert ReachedBy(w.db, g, chain + [g]);
    } else {
      assert IsRoot(w.db, g);
      assert ReachedBy(w.db, g, [g]);
    }
  }

  lemma DerivedIsLater(w: World, j: nat, h: Uuid) returns (i: nat)
    requires Inv(w) && j < |w.issued| && h in w.db.generations && w.db.generations[h].base == Some(w.issued[j])
    ensures j < i < |w.issued| && w.issued[i] == h
  {
    i := IssueIndex(w, h);
    assert BasesEarlier(w) && IdsOk(w);
    assert w.issued[j] in w.issued[..i];
  }

  lemma ReachableRowsExist(w: World, g: Uuid)
    requires Consistent(w.db) && Reachable(w.db, g)
    ensures g in w.db.generations
  {
    var chain :| ReachedBy(w.db, g, chain);
    if |chain| > 1 {
      assert w.db.generations[chain[|chain| - 2]].base == Some(chain[|chain| - 1]);
    }
  }

  /** A sequence of rounds, each of which finds something to delete. */
  ghost predicate Rounds(w: World, rounds: seq<set<Uuid>>)
    decreases rounds
  {
    rounds == [] || (rounds[0] != {} && rounds[0] <= Candidates(w.db) && Rounds(PruneRound(w, rounds[0]), rounds[1..]))
  }

  function AfterRounds(w: World, rounds: seq<set<Uuid>>): World
    decreases rounds
  {
    if rounds == [] then w else AfterRounds(PruneRound(w, rounds[0]), rounds[1..])
  }

  lemma RoundKeeps(w: World, chosen: set<Uuid>)
    requires Inv(w) && chosen <= Candidates(w.db)
    ensures Inv(PruneRound(w, chosen))
  {
    hide Inv, Run, Candidates, PruneRound;
    var bound := AboveAll(w.calls.Keys);
    var order := ListOf(chosen);
    UndisturbedPruneIsARound(w, bound, order);
    RunKeeps(w, PruneEvents(bound, order));
  }

  lemma ListOf(s: set<Uuid>) returns (r: seq<Uuid>)
    ensures Elements(r) == s
  {
    if s == {} {
      r := [];
    } else {
      var x :| x in s;
      var rest := ListOf(s - {x});
      r := [x] + rest;
      assert s == {x} + (s - {x});
    }
  }

  lemma AboveAll(s: set<nat>) returns (r: nat)
    ensures forall x <- s :: x < r
  {
    if s == {} {
      r := 0;
    } else {
      var x :| x in s;
      var rest := AboveAll(s - {x});
      r := if rest <= x then x + 1 else rest;
      forall y <- s ensures y < r {
        if y != x { assert y in s - {x}; }
      }
    }
  }

  /**
   Whatever each round selects, there are at most as many rounds as rows, and once no candidate is left the rows
   are exactly those reachable along base links from the roots of the first state, unchanged and still on disk.
   */
  lemma {:induction false} PruneConverges(w: World, rounds: seq<set<Uuid>>)
    requires Inv(w) && Rounds(w, rounds)
    ensures var after := AfterRounds(w, rounds);
            && Inv(after)
            && |rounds| + |after.db.generations| <= |w.db.generations|
            && (forall g <- after.db.generations :: g in w.db.generations && after.db.generations[g] == w.db.generations[g])
            && (forall g | Reachable(w.db, g) :: g in after.db.generations)
            && after.db == w.db.(generations := after.db.generations)
            && (Candidates(after.db) == {} ==>
                  forall g :: g in after.db.generations <==> Reachable(w.db, g))
    decreases rounds
  {
    hide Inv, Consistent;
    if rounds == [] {
      forall g | Reachable(w.db, g) ensures g in w.db.generations { InvConsistent(w); ReachableRowsExist(w, g); }
      if Candidates(w.db) == {} {
        forall g <- w.db.generations ensures Reachable(w.db, g) {
          var j := IssueIndex(w, g);
          SettledRowsAreReachable(w, j);
        }
      }
    } else {
      var next := PruneRound(w, rounds[0]);
      RoundKeeps(w, rounds[0]);
      RoundKeepsReachable(w, rounds[0]);
      assert |next.db.generations| < |w.db.generations| by {
        var x :| x in rounds[0];
        assert x in w.db.generations && x !in next.db.generations;
        assert next.db.generations.Keys < w.db.generations.Keys;
        SmallerDomain(next.db.generations.Keys, w.db.generations.Keys);
      }
      PruneConverges(next, rounds[1..]);
    }
  }

  lemma InvConsistent(w: World)
    requires Inv(w)
    ensures Consistent(w.db)
  {
  }

  lemma IssueIndex(w: World, g: Uuid) returns (j: nat)
    requires Inv(w) && g in w.db.generations
    ensures j < |w.issued| && w.issued[j] == g
  {
    assert Issued(w, g);
    j :| 0 <= j < |w.issued| && w.issued[j] == g;
  }

  lemma SmallerDomain(a: set<Uuid>, b: set<Uuid>)
    requires a < b
    ensures |a| < |b|
  {
    var x :| x in b && x !in a;
    assert |b - {x}| == |b| - 1;
    assert a <= b - {x};
    SubsetSize(a, b - {x});
  }
}
