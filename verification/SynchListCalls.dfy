/**
 The synchronised list as its callers see it: what they pass to Append, and what Remove gives them back.
 */
module SynchListCalls {
  import opened Options
  import opened Threads
  import opened ThreadSafety
  import opened SynchLists

  // ---------------------------------------------------------------- what is passed in

  /** The items of the calls of Append among the moves. */
  function Appends(moves: seq<Move>): multiset<int> {
    if moves == [] then multiset{} else Passed(moves[0]) + Appends(moves[1..])
  }

  function Passed(s: Move): multiset<int> { if s.CallAppend? then multiset{s.item} else multiset{} }

  /** The item that a thread has passed and not yet put on the list. */
  function HeldAt(pc: Pc): seq<int> { if pc.AppendItem? then [pc.item] else [] }

  function Held(pcs: seq<Pc>): multiset<int> { if pcs == [] then multiset{} else multiset(HeldAt(pcs[0])) + Held(pcs[1..]) }

  lemma {:induction false} HeldUpdate(pcs: seq<Pc>, t: int, pc: Pc)
    requires 0 <= t < |pcs|
    ensures Held(pcs[t := pc]) + multiset(HeldAt(pcs[t])) == Held(pcs) + multiset(HeldAt(pc))
    decreases t
  {
    if t == 0 {
      assert pcs[t := pc][1..] == pcs[1..];
    } else {
      HeldUpdate(pcs[1..], t - 1, pc);
      assert pcs[t := pc][1..] == pcs[1..][t - 1 := pc];
      Beside(multiset(HeldAt(pcs[0])), Held(pcs[t := pc][1..]), multiset(HeldAt(pcs[t])), Held(pcs[1..]), multiset(HeldAt(pc)));
    }
  }

  lemma Beside(a: multiset<int>, b: multiset<int>, c: multiset<int>, d: multiset<int>, e: multiset<int>)
    requires b + c == d + e
    ensures a + b + c == a + d + e
  {
    forall x ensures (a + b + c)[x] == (a + d + e)[x] { assert (b + c)[x] == (d + e)[x]; }
  }

  function InAll(m: Machine): multiset<int> { multiset(m.appended) + Held(m.pcs) }

  lemma NextInAll(m: Machine, s: Move)
    requires CanStep(m, s) && Next(m, s).Some?
    ensures InAll(Next(m, s).value) == InAll(m) + Passed(s)
  {
    if !s.Other? {
      var n, t := Next(m, s).value, m.k.current.value;
      OneStep(m, s, t, n);
      HeldUpdate(m.pcs, t, n.pcs[t]);
      Balance(multiset(m.appended), Held(m.pcs), Held(n.pcs), HeldAt(m.pcs[t]), HeldAt(n.pcs[t]), multiset(n.appended), Passed(s));
    }
  }

  /** A move of a thread at the list: a call takes its item up, the line after it puts the item on record. */
  lemma OneStep(m: Machine, s: Move, t: int, n: Machine)
    requires CanStep(m, s) && !s.Other? && Next(m, s) == Some(n) && m.k.current == Some(t)
    ensures n.pcs == m.pcs[t := n.pcs[t]]
    ensures if s.CallAppend? then HeldAt(m.pcs[t]) == [] && HeldAt(n.pcs[t]) == [s.item] && n.appended == m.appended
            else HeldAt(n.pcs[t]) == [] && n.appended == m.appended + HeldAt(m.pcs[t])
    ensures n.producers == if !s.CallAppend? && m.pcs[t].AppendItem? then m.producers + [t] else m.producers
  {
  }

  lemma Balance(was: multiset<int>, held: multiset<int>, holds: multiset<int>, before: seq<int>, after: seq<int>, now: multiset<int>, passed: multiset<int>)
    requires holds + multiset(before) == held + multiset(after)
    requires (before == [] && multiset(after) == passed && now == was) || (after == [] && passed == multiset{} && now == was + multiset(before))
    ensures now + holds == was + held + passed
  {
    forall x ensures (now + holds)[x] == (was + held + passed)[x] {
      assert (holds + multiset(before))[x] == (held + multiset(after))[x];
    }
  }

  lemma {:induction false} RunInAll(m: Machine, moves: seq<Move>, n: Machine)
    requires RunsTo(m, moves, Some(n))
    ensures InAll(n) == InAll(m) + Appends(moves)
    decreases |moves|
  {
    if moves != [] {
      NextInAll(m, moves[0]);
      RunInAll(Next(m, moves[0]).value, moves[1..], n);
    }
  }

  // ---------------------------------------------------------------- in which order

  /** What thread t passes to Append in a run, in order. */
  ghost function CallsBy(m: Machine, moves: seq<Move>, t: int): seq<int>
    decreases |moves|
  {
    if moves == [] || !CanStep(m, moves[0]) then []
    else CallBy(m, moves[0], t) + match Next(m, moves[0])
                                  case None => []
                                  case Some(n) => CallsBy(n, moves[1..], t)
  }

  function CallBy(m: Machine, s: Move, t: int): seq<int> { if s.CallAppend? && m.k.current == Some(t) then [s.item] else [] }

  /** What thread t has put on the list, in order. */
  function ItemsBy(producers: seq<int>, items: seq<int>, t: int): seq<int>
    requires |producers| == |items|
  {
    if items == [] then []
    else
      var n := |items| - 1;
      ItemsBy(producers[..n], items[..n], t) + if producers[n] == t then [items[n]] else []
  }

  lemma ItemsMore(producers: seq<int>, items: seq<int>, t: int, u: int, x: int)
    requires |producers| == |items|
    ensures ItemsBy(producers + [u], items + [x], t) == ItemsBy(producers, items, t) + if u == t then [x] else []
  {
    assert (producers + [u])[..|items|] == producers && (items + [x])[..|items|] == items;
  }

  ghost predicate Logged(m: Machine) { |m.producers| == |m.appended| }

  /** What thread t has passed in so far: what it has put on the list, and what it still holds. */
  function PassedBy(m: Machine, t: int): seq<int>
    requires |m.producers| == |m.appended| && 0 <= t < |m.pcs|
  {
    ItemsBy(m.producers, m.appended, t) + HeldAt(m.pcs[t])
  }

  lemma NextPassedBy(m: Machine, s: Move, t: int)
    requires CanStep(m, s) && Next(m, s).Some? && Logged(m) && 0 <= t < |m.pcs|
    ensures var n := Next(m, s).value;
            Logged(n) && |n.pcs| == |m.pcs| && PassedBy(n, t) == PassedBy(m, t) + CallBy(m, s, t)
  {
    if !s.Other? {
      var n, u := Next(m, s).value, m.k.current.value;
      OneStep(m, s, u, n);
      StepPassedBy(m, s, u, n, t);
    }
  }

  lemma StepPassedBy(m: Machine, s: Move, u: int, n: Machine, t: int)
    requires Logged(m) && 0 <= t < |m.pcs| && 0 <= u < |m.pcs| && m.k.current == Some(u) && |n.pcs| == |m.pcs| && n.pcs == m.pcs[u := n.pcs[u]]
    requires if s.CallAppend? then HeldAt(m.pcs[u]) == [] && HeldAt(n.pcs[u]) == [s.item] && n.appended == m.appended
             else HeldAt(n.pcs[u]) == [] && n.appended == m.appended + HeldAt(m.pcs[u])
    requires n.producers == if !s.CallAppend? && m.pcs[u].AppendItem? then m.producers + [u] else m.producers
    ensures Logged(n) && PassedBy(n, t) == PassedBy(m, t) + CallBy(m, s, t)
  {
    assert m.appended + [] == m.appended;
    if !s.CallAppend? && m.pcs[u].AppendItem? { ItemsMore(m.producers, m.appended, t, u, m.pcs[u].item); }
  }

  lemma {:induction false} RunPassedBy(m: Machine, moves: seq<Move>, n: Machine, t: int)
    requires RunsTo(m, moves, Some(n)) && Logged(m) && 0 <= t < |m.pcs|
    ensures Logged(n) && |n.pcs| == |m.pcs| && PassedBy(n, t) == PassedBy(m, t) + CallsBy(m, moves, t)
    decreases |moves|
  {
    if moves != [] {
      var k := Next(m, moves[0]).value;
      NextPassedBy(m, moves[0], t);
      RunPassedBy(k, moves[1..], n, t);
      CallsByNext(m, moves, k, t);
      Chain(PassedBy(m, t), CallBy(m, moves[0], t), PassedBy(k, t), CallsBy(k, moves[1..], t), PassedBy(n, t));
    }
  }

  lemma CallsByNext(m: Machine, moves: seq<Move>, k: Machine, t: int)
    requires moves != [] && CanStep(m, moves[0]) && Next(m, moves[0]) == Some(k)
    ensures CallsBy(m, moves, t) == CallBy(m, moves[0], t) + CallsBy(k, moves[1..], t)
  {
  }

  lemma Chain(a: seq<int>, d: seq<int>, b: seq<int>, e: seq<int>, c: seq<int>)
    requires b == a + d && c == b + e
    ensures c == a + (d + e)
  {
  }

  // ---------------------------------------------------------------- what is given back

  /** What Remove returns to its callers in a run, in order. */
  ghost function Returns(m: Machine, moves: seq<Move>): seq<int>
    decreases |moves|
  {
    if moves == [] || !CanStep(m, moves[0]) then []
    else ReturnAt(m, moves[0]) + match Next(m, moves[0])
                                 case None => []
                                 case Some(n) => Returns(n, moves[1..])
  }

  function ReturnAt(m: Machine, s: Move): seq<int> {
    if s.Advance? && m.k.current.Some? && 0 <= m.k.current.value < |m.pcs| && m.pcs[m.k.current.value].RemoveRelease?
    then [m.pcs[m.k.current.value].item] else []
  }

  /** Some thread has taken the item and is about to return it. */
  ghost predicate Handing(m: Machine, x: int) { exists t :: 0 <= t < |m.pcs| && m.pcs[t] == RemoveRelease(x) }

  /** All that was delivered has been returned, but for the one item that may be about to be. */
  ghost predicate GivenBack(m: Machine, returned: seq<int>) {
    || (m.delivered == returned && forall t :: 0 <= t < |m.pcs| ==> !m.pcs[t].RemoveRelease?)
    || (m.delivered != [] && m.delivered[..|m.delivered| - 1] == returned && Handing(m, m.delivered[|m.delivered| - 1]))
  }

  lemma OneHanding(m: Machine, t: int, u: int)
    requires ListSafe(m) && 0 <= t < |m.pcs| && 0 <= u < |m.pcs| && m.pcs[t].RemoveRelease?
    requires m.pcs[u].RemoveRelease? || (m.pcs[u] != Outside && m.k.threads[u].resume.Go?)
    ensures t == u
  {
    assert InsideOk(m, t) && InsideOk(m, u);
  }

  lemma NextGivenBack(m: Machine, s: Move, returned: seq<int>)
    requires ListSafe(m) && CanStep(m, s) && Next(m, s).Some? && GivenBack(m, returned)
    ensures GivenBack(Next(m, s).value, returned + ReturnAt(m, s))
  {
    if s.Advance? {
      LineGivenBack(m, m.k.current.value, returned);
    } else {
      OtherReturns(m, s);
      StillGivenBack(m, Next(m, s).value, returned);
      assert returned + [] == returned;
    }
  }

  /** Moves other than the lines of a call touch nobody who is about to return an item. */
  lemma OtherReturns(m: Machine, s: Move)
    requires CanStep(m, s) && !s.Advance? && Next(m, s).Some?
    ensures var n := Next(m, s).value;
            && n.delivered == m.delivered && |n.pcs| == |m.pcs| && ReturnAt(m, s) == []
            && forall t :: 0 <= t < |m.pcs| ==> (n.pcs[t].RemoveRelease? || m.pcs[t].RemoveRelease? ==> n.pcs[t] == m.pcs[t])
  {
  }

  lemma StillGivenBack(m: Machine, n: Machine, returned: seq<int>)
    requires GivenBack(m, returned) && n.delivered == m.delivered && |n.pcs| == |m.pcs|
    requires forall t :: 0 <= t < |m.pcs| ==> (n.pcs[t].RemoveRelease? || m.pcs[t].RemoveRelease? ==> n.pcs[t] == m.pcs[t])
    ensures GivenBack(n, returned)
  {
    if m.delivered != [] && Handing(m, m.delivered[|m.delivered| - 1]) {
      var x := m.delivered[|m.delivered| - 1];
      var t :| 0 <= t < |m.pcs| && m.pcs[t] == RemoveRelease(x);
      assert n.pcs[t] == RemoveRelease(x);
    }
  }

  lemma LineGivenBack(m: Machine, t: int, returned: seq<int>)
    requires ListSafe(m) && Sane(m.k) && AtPc(m, t) && m.pcs[t] != Outside && Line(m, t).Some? && GivenBack(m, returned)
    ensures GivenBack(Line(m, t).value, returned + ReturnAt(m, Advance))
  {
    var n := Line(m, t).value;
    forall u | 0 <= u < |m.pcs| && m.pcs[u].RemoveRelease? ensures u == t { OneHanding(m, u, t); }
    if m.pcs[t].RemoveRelease? {
      assert m.delivered == m.delivered[..|m.delivered| - 1] + [m.pcs[t].item];
    } else if m.pcs[t].RemoveTake? {
      assert n.pcs[t] == RemoveRelease(m.list[0]) && n.delivered[..|n.delivered| - 1] == m.delivered;
    }
  }

  lemma {:induction false} RunGivenBack(m: Machine, moves: seq<Move>, n: Machine, returned: seq<int>)
    requires ListSafe(m) && RunsTo(m, moves, Some(n)) && GivenBack(m, returned)
    ensures GivenBack(n, returned + Returns(m, moves))
    decreases |moves|
  {
    if moves != [] {
      var k := Next(m, moves[0]).value;
      NextSafe(m, moves[0]);
      NextGivenBack(m, moves[0], returned);
      RunGivenBack(k, moves[1..], n, returned + ReturnAt(m, moves[0]));
      ReturnsNext(m, moves, k);
      Glue(returned, ReturnAt(m, moves[0]), Returns(k, moves[1..]));
    } else {
      assert returned + Returns(m, moves) == returned;
    }
  }

  lemma ReturnsNext(m: Machine, moves: seq<Move>, k: Machine)
    requires moves != [] && CanStep(m, moves[0]) && Next(m, moves[0]) == Some(k)
    ensures Returns(m, moves) == ReturnAt(m, moves[0]) + Returns(k, moves[1..])
  {
  }

  lemma Glue(a: seq<int>, b: seq<int>, c: seq<int>)
    ensures a + b + c == a + (b + c)
  {
  }

  // ---------------------------------------------------------------- the list as a channel

  /** Under any schedule: the items passed to Append are those on record and those still held, each thread's in the
      order of its calls; and the record is what Remove has returned, in order, then the item about to be returned, if
      any, then the list. */
  lemma Channel(m: Machine, moves: seq<Move>, n: Machine)
    requires Start(m) && RunsTo(m, moves, Some(n))
    ensures Appends(moves) == multiset(n.appended) + Held(n.pcs)
    ensures Logged(n) && |n.pcs| == |m.pcs| && forall t :: 0 <= t < |n.pcs| ==> CallsBy(m, moves, t) == PassedBy(n, t)
    ensures n.appended == n.delivered + n.list && GivenBack(n, Returns(m, moves))
  {
    StartSafe(m);
    StartHolds(m.pcs);
    RunInAll(m, moves, n);
    AlwaysListSafe(m, moves, Some(n));
    RunGivenBack(m, moves, n, []);
    assert [] + Returns(m, moves) == Returns(m, moves);
    RunPassed(m, moves, n);
  }

  lemma {:induction false} StartHolds(pcs: seq<Pc>)
    requires forall t :: 0 <= t < |pcs| ==> pcs[t] == Outside
    ensures Held(pcs) == multiset{}
  {
    if pcs != [] { StartHolds(pcs[1..]); }
  }

  lemma {:induction false} RunPassed(m: Machine, moves: seq<Move>, n: Machine)
    requires Start(m) && RunsTo(m, moves, Some(n))
    ensures Logged(n) && |n.pcs| == |m.pcs| && forall t :: 0 <= t < |n.pcs| ==> CallsBy(m, moves, t) == PassedBy(n, t)
  {
    RunLogged(m, moves, n);
    forall t | 0 <= t < |n.pcs| ensures CallsBy(m, moves, t) == PassedBy(n, t) {
      RunPassedBy(m, moves, n, t);
      assert PassedBy(m, t) == [];
    }
  }

  lemma {:induction false} RunLogged(m: Machine, moves: seq<Move>, n: Machine)
    requires RunsTo(m, moves, Some(n)) && Logged(m)
    ensures Logged(n) && |n.pcs| == |m.pcs|
    decreases |moves|
  {
    if moves != [] { RunLogged(Next(m, moves[0]).value, moves[1..], n); }
  }
}
