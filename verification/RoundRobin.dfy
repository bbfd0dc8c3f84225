/** The scheduling order as a function of the queue, and its fairness over runs. */
module RoundRobin {
  import opened Sequences

  /** `s` without the first occurrence of `x`. */
  function Without<T(==)>(s: seq<T>, x: T): (r: seq<T>)
    requires x in s
    ensures |r| == |s| - 1
  {
    if s[0] == x then s[1..] else [s[0]] + Without(s[1..], x)
  }

  function MoveToBack<T(==)>(s: seq<T>, x: T): (r: seq<T>)
    requires x in s
    ensures |r| == |s|
  {
    Without(s, x) + [x]
  }

  lemma {:induction false} WithoutAt<T>(s: seq<T>, k: nat)
    requires k < |s| && Distinct(s)
    ensures Without(s, s[k]) == s[..k] + s[k + 1..]
  {
    if k > 0 {
      assert s[1..][k - 1] == s[k];
      WithoutAt(s[1..], k - 1);
    }
  }

  /** Moving a task to the back keeps every task exactly once. */
  lemma MoveToBackKeeps<T>(s: seq<T>, x: T)
    requires x in s && Distinct(s)
    ensures Distinct(MoveToBack(s, x)) && multiset(MoveToBack(s, x)) == multiset(s)
    ensures forall y :: y in MoveToBack(s, x) <==> y in s
  {
    var k :| 0 <= k < |s| && s[k] == x;
    WithoutAt(s, k);
    hide Without;
    assert MoveToBack(s, x) == s[..k] + s[k + 1..] + [s[k]];
    LastInstead(s, k);
    SameMembers(MoveToBack(s, x), s);
  }

  lemma SameMembers<T>(a: seq<T>, b: seq<T>)
    requires multiset(a) == multiset(b)
    ensures forall y :: y in a <==> y in b
  {
    forall y ensures y in a <==> y in b {
      assert y in a <==> y in multiset(a);
      assert y in b <==> y in multiset(b);
    }
  }

  lemma LastInstead<T>(s: seq<T>, k: nat)
    requires k < |s| && Distinct(s)
    ensures var m := s[..k] + s[k + 1..] + [s[k]]; Distinct(m) && multiset(m) == multiset(s)
  {
    var m := s[..k] + s[k + 1..] + [s[k]];
    assert s == s[..k] + [s[k]] + s[k + 1..];
    assert multiset(m) == multiset(s[..k]) + multiset(s[k + 1..]) + multiset{s[k]};
    forall i, j | 0 <= i < j < |m| ensures m[i] != m[j] {
      assert m[i] == s[if i < k then i else i + 1];
      assert m[j] == s[if j < k then j else if j < |s| - 1 then j + 1 else k];
    }
  }

  // ----- the scheduler as a state machine -----

  /** The run queue and the running task. */
  datatype Sched<T> = Sched(queue: seq<T>, cur: T)

  ghost predicate Ready<T>(s: Sched<T>) {
    Distinct(s.queue) && s.cur in s.queue
  }

  /** `schedule`: the running task goes to the back, the head runs next. */
  function Schedule<T(==)>(s: Sched<T>): (r: Sched<T>)
    requires s.cur in s.queue
    ensures r.cur in r.queue && |r.queue| == |s.queue|
  {
    var q := MoveToBack(s.queue, s.cur);
    Sched(q, q[0])
  }

  /** `kthread_create`: the new task goes to the front. */
  function Create<T>(s: Sched<T>, t: T): Sched<T> {
    Sched([t] + s.queue, s.cur)
  }

  /** The state after `n` calls of `schedule` without a creation. */
  function After<T(==)>(s: Sched<T>, n: nat): (r: Sched<T>)
    requires s.cur in s.queue
    ensures r.cur in r.queue && |r.queue| == |s.queue|
  {
    if n == 0 then s else Schedule(After(s, n - 1))
  }

  function Rotate<T>(s: seq<T>, k: nat): seq<T>
    requires k <= |s|
  {
    s[k..] + s[..k]
  }

  /** Round robin: from any state, also right after threads were created, the `n`-th call
      selects the tasks of one fixed order in turn, and that order repeats. */
  lemma {:induction false} Cycle<T>(s: Sched<T>, n: nat)
    requires Ready(s)
    ensures var order := MoveToBack(s.queue, s.cur);
      var k := n % |order|;
      After(s, n + 1) == Sched(Rotate(order, k), order[k])
  {
    hide MoveToBack, Distinct;
    var order := MoveToBack(s.queue, s.cur);
    MoveToBackKeeps(s.queue, s.cur);
    if n == 0 {
      assert After(s, 0) == s;
      assert Rotate(order, 0) == order;
    } else {
      Cycle(s, n - 1);
      var j := (n - 1) % |order|;
      var q := Rotate(order, j);
      assert q[0] == order[j];
      HeadToBack(q);
      NextIndex(n, |order|);
      if j + 1 == |order| {
        assert q[1..] + [q[0]] == order == Rotate(order, 0);
      } else {
        assert q[1..] + [q[0]] == Rotate(order, j + 1);
      }
    }
  }

  lemma HeadToBack<T>(q: seq<T>)
    requires q != []
    ensures MoveToBack(q, q[0]) == q[1..] + [q[0]]
  {
  }

  lemma NextIndex(n: nat, m: nat)
    requires n > 0 && m > 0
    ensures n % m == if (n - 1) % m + 1 == m then 0 else (n - 1) % m + 1
  {
    var q, r := (n - 1) / m, (n - 1) % m;
    assert n == q * m + r + 1;
    if r + 1 == m {
      assert n == (q + 1) * m;
      QuotientUnique(n, m, q + 1, 0);
    } else {
      QuotientUnique(n, m, q, r + 1);
    }
  }

  lemma QuotientUnique(n: nat, m: nat, q: nat, r: nat)
    requires n == q * m + r && r < m
    ensures n % m == r
  {
    var d := n / m - q;
    assert d * m == r - n % m;
    assert d >= 1 ==> d * m >= m;
    assert d <= -1 ==> d * m <= 0 - m;
  }

  /** The tasks selected by calls `i + 1` to `i + n`. */
  function Selected<T(==)>(s: Sched<T>, i: nat, n: nat): (r: seq<T>)
    requires s.cur in s.queue
    ensures |r| == n
  {
    seq(n, j requires 0 <= j < n => After(s, i + j + 1).cur)
  }

  /** Fairness: any `|queue|` consecutive calls select every task exactly once. */
  lemma Fair<T>(s: Sched<T>, i: nat)
    requires Ready(s)
    ensures Distinct(Selected(s, i, |s.queue|))
    ensures multiset(Selected(s, i, |s.queue|)) == multiset(s.queue)
  {
    hide MoveToBack, Distinct, After;
    var order := MoveToBack(s.queue, s.cur);
    var n := |order|;
    var k := i % n;
    MoveToBackKeeps(s.queue, s.cur);
    var sel := Selected(s, i, n);
    forall j | 0 <= j < n ensures sel[j] == Rotate(order, k)[j] {
      Cycle(s, i + j);
      OffsetIndex(i, j, n);
    }
    assert sel == Rotate(order, k);
    RotateKeeps(order, k);
  }

  lemma RotateKeeps<T>(s: seq<T>, k: nat)
    requires k <= |s| && Distinct(s)
    ensures Distinct(Rotate(s, k)) && multiset(Rotate(s, k)) == multiset(s)
  {
    assert s == s[..k] + s[k..];
    var m := Rotate(s, k);
    forall i, j | 0 <= i < j < |m| ensures m[i] != m[j] {
      assert m[i] == s[if i < |s| - k then k + i else i - (|s| - k)];
      assert m[j] == s[if j < |s| - k then k + j else j - (|s| - k)];
    }
  }

  lemma OffsetIndex(i: nat, j: nat, m: nat)
    requires j < m
    ensures (i + j) % m == if i % m + j < m then i % m + j else i % m + j - m
  {
    var q, r := i / m, i % m;
    assert i + j == q * m + (r + j);
    if r + j < m {
      QuotientUnique(i + j, m, q, r + j);
    } else {
      assert i + j == (q + 1) * m + (r + j - m);
      QuotientUnique(i + j, m, q + 1, r + j - m);
    }
  }

  // ----- runs with creations in between -----

  datatype Event<T> = Switch | Spawn(task: T)

  /** The number of calls of `schedule` until `t` is selected, if nothing is created. */
  ghost function Wait<T>(s: Sched<T>, t: T): nat
    requires s.cur in s.queue && t in s.queue
  {
    Position(MoveToBack(s.queue, s.cur), t) + 1
  }

  /** Index of the first occurrence. */
  function Position<T(==)>(s: seq<T>, t: T): (k: nat)
    ensures k <= |s| && (t in s ==> k < |s| && s[k] == t)
  {
    if s == [] || s[0] == t then 0 else 1 + Position(s[1..], t)
  }

  lemma {:induction false} PositionIs<T>(s: seq<T>, t: T, k: nat)
    requires Distinct(s) && k < |s| && s[k] == t
    ensures Position(s, t) == k
  {
  }

  function Do<T(==)>(s: Sched<T>, e: Event<T>): (r: Sched<T>)
    requires s.cur in s.queue
    ensures r.cur in r.queue
  {
    match e
    case Switch => Schedule(s)
    case Spawn(t) => Create(s, t)
  }

  /** States of a run: every created task is new. */
  ghost predicate Run<T>(ss: seq<Sched<T>>, es: seq<Event<T>>) {
    && |ss| == |es| + 1 && Ready(ss[0])
    && forall i :: 0 <= i < |es| ==>
         Ready(ss[i]) && ss[i + 1] == Do(ss[i], es[i]) && (es[i].Spawn? ==> es[i].task !in ss[i].queue)
  }

  function Switches<T>(es: seq<Event<T>>): nat {
    if es == [] then 0 else Switches(es[..|es| - 1]) + (if es[|es| - 1].Switch? then 1 else 0)
  }

  function Spawns<T>(es: seq<Event<T>>): nat {
    if es == [] then 0 else Spawns(es[..|es| - 1]) + (if es[|es| - 1].Spawn? then 1 else 0)
  }

  lemma DoReady<T>(s: Sched<T>, e: Event<T>)
    requires Ready(s) && (e.Spawn? ==> e.task !in s.queue)
    ensures Ready(Do(s, e)) && forall t :: t in s.queue ==> t in Do(s, e).queue
  {
    MoveToBackKeeps(s.queue, s.cur);
  }

  lemma WaitSpawn<T>(s: Sched<T>, x: T, t: T)
    requires Ready(s) && t in s.queue && x !in s.queue
    ensures s.cur in Create(s, x).queue && t in Create(s, x).queue && Wait(Create(s, x), t) == Wait(s, t) + 1
  {
    var q := [x] + s.queue;
    assert q[1..] == s.queue;
    var m := MoveToBack(s.queue, s.cur);
    assert MoveToBack(q, s.cur) == [x] + m;
    assert ([x] + m)[1..] == m;
    MoveToBackKeeps(s.queue, s.cur);
  }

  lemma WaitSwitch<T>(s: Sched<T>, t: T)
    requires Ready(s) && t in s.queue
    ensures t in Schedule(s).queue
    ensures Schedule(s).cur == t <==> Wait(s, t) == 1
    ensures Schedule(s).cur != t ==> Wait(Schedule(s), t) + 1 == Wait(s, t)
  {
    hide MoveToBack, Distinct, Position;
    var m := MoveToBack(s.queue, s.cur);
    MoveToBackKeeps(s.queue, s.cur);
    PositionHead(m, t);
    if m[0] != t {
      HeadToBack(m);
      MoveToBackKeeps(m, m[0]);
      PositionIs(m[1..] + [m[0]], t, Position(m, t) - 1);
    }
  }

  lemma PositionHead<T>(s: seq<T>, t: T)
    requires s != []
    ensures Position(s, t) == 0 <==> s[0] == t
  {
  }

  /** One event: a creation lengthens the wait by one, a switch to another task shortens it. */
  lemma WaitStep<T>(s: Sched<T>, e: Event<T>, t: T)
    requires Ready(s) && t in s.queue && (e.Spawn? ==> e.task !in s.queue)
    ensures t in Do(s, e).queue
    ensures e.Spawn? ==> Wait(Do(s, e), t) == Wait(s, t) + 1
    ensures e.Switch? && Do(s, e).cur != t ==> Wait(Do(s, e), t) + 1 == Wait(s, t)
    ensures e.Switch? ==> (Do(s, e).cur == t <==> Wait(s, t) == 1)
  {
    match e {
      case Spawn(x) => WaitSpawn(s, x, t);
      case Switch => WaitSwitch(s, t);
    }
  }

  /** Bounded waiting: a task is selected no later than its wait at the start plus one call
      for every thread created in the meantime. */
  lemma {:induction false} SelectedInTime<T>(ss: seq<Sched<T>>, es: seq<Event<T>>, t: T)
    requires Run(ss, es) && t in ss[0].queue
    requires forall i :: 0 <= i < |es| && es[i].Switch? ==> ss[i + 1].cur != t
    ensures t in ss[|es|].queue && Ready(ss[|es|])
    ensures Switches(es) + Wait(ss[|es|], t) == Wait(ss[0], t) + Spawns(es)
    ensures Switches(es) < Wait(ss[0], t) + Spawns(es)
    decreases |es|
  {
    if es != [] {
      var n := |es| - 1;
      SelectedInTime(ss[..n + 1], es[..n], t);
      assert Run(ss[..n + 1], es[..n]);
      assert ss[n + 1] == Do(ss[n], es[n]);
      DoReady(ss[n], es[n]);
      WaitStep(ss[n], es[n], t);
    }
  }
}
