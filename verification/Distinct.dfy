/** The limiter on how many distinct identities a node obtains, counted in windows that begin with
    the first request after the previous window has run out. */
module Distinct {
  import opened Text

  datatype Span = Span(start: int, ids: set<string>)

  type Seen = map<string, Span>

  datatype Cap = Cap(limit: nat, window: int)

  // ---- What the operations do ----

  /** The node's window at `now`: the one under way, or a new one. */
  function Open(c: Cap, m: Seen, node: string, now: int): Span
  {
    if node in m && now - m[node].start < c.window then m[node] else Span(now, {})
  }

  predicate Admits(c: Cap, m: Seen, node: string, id: string, now: int)
  {
    c.limit == 0 || id in Open(c, m, node, now).ids || |Open(c, m, node, now).ids| < c.limit
  }

  function After(c: Cap, m: Seen, node: string, id: string, now: int): Seen
  {
    if c.limit == 0 then m
    else var s := Open(c, m, node, now);
         m[node := if Admits(c, m, node, id, now) then Span(s.start, s.ids + {id}) else s]
  }

  function Swept(c: Cap, m: Seen, now: int): Seen
  {
    map k | k in m && now - m[k].start < c.window :: m[k]
  }

  class Limiter {
    const cap: Cap
    var seen: Seen

    constructor (limit: nat, windowSecs: int)
      ensures cap == Cap(limit, windowSecs) && seen == map[]
    {
      cap := Cap(limit, windowSecs);
      seen := map[];
    }

    /** `allow`. */
    method Allow(node: string, id: string, now: int) returns (ok: bool)
      modifies this
      ensures ok == Admits(cap, old(seen), node, id, now)
      ensures seen == After(cap, old(seen), node, id, now)
    {
      if cap.limit == 0 {
        return true;
      }
      var start, ids := now, {};
      if node in seen {
        start, ids := seen[node].start, seen[node].ids;
      }
      if now - start >= cap.window {
        start, ids := now, {};
      }
      if id in ids {
        assert Span(start, ids + {id}) == Span(start, ids) by { assert ids + {id} == ids; }
        ok := true;
      } else if |ids| >= cap.limit {
        ok := false;
      } else {
        ids := ids + {id};
        ok := true;
      }
      seen := seen[node := Span(start, ids)];
    }

    /** `sweep`. */
    method Sweep(now: int)
      modifies this
      ensures seen == Swept(cap, old(seen), now)
    {
      seen := map k | k in seen && now - seen[k].start < cap.window :: seen[k];
    }
  }

  /** A refusal leaves no trace. */
  lemma RefusalChangesNothing(c: Cap, m: Seen, node: string, id: string, now: int)
    requires !Admits(c, m, node, id, now)
    ensures After(c, m, node, id, now) == m
  {
  }

  // ---- Runs ----

  datatype Op = Allow(node: string, id: string, now: int) | Sweep(now: int)

  /** The limiter, and for the proofs every window each node ever had and every admission with its time. */
  datatype World = World(m: Seen, spans: map<string, seq<Span>>, admitted: map<string, seq<(string, int)>>)

  const NEW := World(map[], map[], map[])

  function Spans(w: World, node: string): seq<Span>
  {
    if node in w.spans then w.spans[node] else []
  }

  function Admitted(w: World, node: string): seq<(string, int)>
  {
    if node in w.admitted then w.admitted[node] else []
  }

  /** The node's windows with the newest replaced, or a further one. */
  function Extend(spans: seq<Span>, s: Span): seq<Span>
  {
    if spans != [] && spans[|spans| - 1].start == s.start then spans[|spans| - 1 := s] else spans + [s]
  }

  function Apply(c: Cap, w: World, op: Op): World
  {
    match op
    case Sweep(now) => w.(m := Swept(c, w.m, now))
    case Allow(node, id, now) =>
      if c.limit == 0 || !Admits(c, w.m, node, id, now) then w.(m := After(c, w.m, node, id, now))
      else
        var m := After(c, w.m, node, id, now);
        World(m, w.spans[node := Extend(Spans(w, node), m[node])],
              w.admitted[node := Admitted(w, node) + [(id, now)]])
  }

  function Run(c: Cap, w: World, ops: seq<Op>): World
    decreases |ops|
  {
    if ops == [] then w else Run(c, Apply(c, w, ops[0]), ops[1..])
  }

  predicate InOrder(clock: int, ops: seq<Op>)
    decreases |ops|
  {
    ops == [] || (clock <= ops[0].now && InOrder(ops[0].now, ops[1..]))
  }

  /** A node's windows are at least one window length apart and none is over the limit. */
  ghost predicate SpansOk(c: Cap, spans: seq<Span>, clock: int)
  {
    && (forall i :: 0 <= i < |spans| ==> |spans[i].ids| <= c.limit && spans[i].start <= clock)
    && (forall i, j :: 0 <= i < j < |spans| ==> spans[i].start + c.window <= spans[j].start)
  }

  /** Every admission belongs to a window that was under way at its time. */
  ghost predicate Covered(c: Cap, spans: seq<Span>, a: (string, int))
  {
    exists i :: 0 <= i < |spans| && spans[i].start <= a.1 < spans[i].start + c.window && a.0 in spans[i].ids
  }

  ghost predicate NodeOk(c: Cap, w: World, node: string, clock: int)
  {
    var spans := Spans(w, node);
    && SpansOk(c, spans, clock)
    && (node in w.m ==> spans != [] && spans[|spans| - 1] == w.m[node])
    && (node !in w.m && spans != [] ==> spans[|spans| - 1].start + c.window <= clock)
    && (forall i :: 0 <= i < |Admitted(w, node)| ==> Covered(c, spans, Admitted(w, node)[i]))
  }

  ghost predicate Ok(c: Cap, w: World, clock: int)
  {
    forall node :: NodeOk(c, w, node, clock)
  }

  lemma CoveredLater(c: Cap, spans: seq<Span>, s: Span, a: (string, int))
    requires Covered(c, spans, a)
    requires (spans != [] && spans[|spans| - 1].start == s.start ==> spans[|spans| - 1].ids <= s.ids)
    ensures Covered(c, Extend(spans, s), a)
  {
    var i :| 0 <= i < |spans| && spans[i].start <= a.1 < spans[i].start + c.window && a.0 in spans[i].ids;
    assert Extend(spans, s)[i].start == spans[i].start && spans[i].ids <= Extend(spans, s)[i].ids;
  }

  lemma ExtendKeepsSpans(c: Cap, spans: seq<Span>, s: Span, clock: int)
    requires SpansOk(c, spans, clock) && c.window > 0 && |s.ids| <= c.limit && s.start <= clock
    requires spans != [] ==> spans[|spans| - 1].start == s.start || spans[|spans| - 1].start + c.window <= s.start
    ensures SpansOk(c, Extend(spans, s), clock)
  {
  }

  lemma AdmissionKeepsNode(c: Cap, w: World, clock: int, node: string, id: string, now: int)
    requires c.limit > 0 && c.window > 0 && NodeOk(c, w, node, clock) && clock <= now && Admits(c, w.m, node, id, now)
    ensures NodeOk(c, Apply(c, w, Allow(node, id, now)), node, now)
  {
    var w' := Apply(c, w, Allow(node, id, now));
    var spans, s := Spans(w, node), w'.m[node];
    assert |s.ids| <= c.limit by {
      assert id in Open(c, w.m, node, now).ids ==> Open(c, w.m, node, now).ids + {id} == Open(c, w.m, node, now).ids;
    }
    ExtendKeepsSpans(c, spans, s, now);
    var all := Admitted(w', node);
    forall i | 0 <= i < |all| ensures Covered(c, Extend(spans, s), all[i]) {
      if i < |all| - 1 {
        assert all[i] == Admitted(w, node)[i] && Covered(c, spans, all[i]);
        CoveredLater(c, spans, s, all[i]);
      } else {
        var last := Extend(spans, s);
        assert last[|last| - 1] == s && s.start <= now < s.start + c.window && id in s.ids;
      }
    }
  }

  lemma OthersKeepNode(c: Cap, w: World, clock: int, op: Op, node: string)
    requires c.limit > 0 && NodeOk(c, w, node, clock) && clock <= op.now
    requires op.Allow? ==> op.node != node || !Admits(c, w.m, op.node, op.id, op.now)
    ensures NodeOk(c, Apply(c, w, op), node, op.now)
  {
    var w' := Apply(c, w, op);
    if op.Allow? && op.node == node {
      RefusalChangesNothing(c, w.m, node, op.id, op.now);
    }
    assert Spans(w', node) == Spans(w, node) && Admitted(w', node) == Admitted(w, node);
    assert SpansOk(c, Spans(w, node), op.now);
  }

  lemma ApplyKeepsOk(c: Cap, w: World, clock: int, op: Op)
    requires c.limit > 0 && c.window > 0 && Ok(c, w, clock) && clock <= op.now
    ensures Ok(c, Apply(c, w, op), op.now)
  {
    forall node ensures NodeOk(c, Apply(c, w, op), node, op.now) {
      assert NodeOk(c, w, node, clock);
      if op.Allow? && op.node == node && Admits(c, w.m, node, op.id, op.now) {
        AdmissionKeepsNode(c, w, clock, node, op.id, op.now);
      } else {
        OthersKeepNode(c, w, clock, op, node);
      }
    }
  }

  /** The time of the last operation. */
  function End(clock: int, ops: seq<Op>): int
  {
    if ops == [] then clock else ops[|ops| - 1].now
  }

  lemma {:induction false} RunKeepsOk(c: Cap, w: World, clock: int, ops: seq<Op>)
    requires c.limit > 0 && c.window > 0 && Ok(c, w, clock) && InOrder(clock, ops)
    ensures Ok(c, Run(c, w, ops), End(clock, ops))
    decreases |ops|
  {
    hide Ok, Apply;
    if ops != [] {
      ApplyKeepsOk(c, w, clock, ops[0]);
      RunKeepsOk(c, Apply(c, w, ops[0]), ops[0].now, ops[1..]);
    }
  }

  // ---- What is seen from outside ----

  predicate Answer(c: Cap, m: Seen, op: Op)
  {
    op.Sweep? || Admits(c, m, op.node, op.id, op.now)
  }

  function Next(c: Cap, m: Seen, op: Op): Seen
  {
    match op
    case Sweep(now) => Swept(c, m, now)
    case Allow(node, id, now) => After(c, m, node, id, now)
  }

  function NextAll(c: Cap, m: Seen, ops: seq<Op>): Seen
    decreases |ops|
  {
    if ops == [] then m else NextAll(c, Next(c, m, ops[0]), ops[1..])
  }

  /** The identities a node was admitted for and when, read off the answers. */
  function Accepted(c: Cap, m: Seen, ops: seq<Op>, node: string): seq<(string, int)>
    decreases |ops|
  {
    if ops == [] then []
    else
      var op := ops[0];
      (if op.Allow? && op.node == node && Answer(c, m, op) then [(op.id, op.now)] else [])
      + Accepted(c, Next(c, m, op), ops[1..], node)
  }

  /** When a node's windows began: each with the first admission after the one before was over. */
  function Starts(admitted: seq<(string, int)>, window: int): seq<int>
  {
    if admitted == [] then []
    else
      var starts, now := Starts(admitted[..|admitted| - 1], window), admitted[|admitted| - 1].1;
      if starts != [] && now - starts[|starts| - 1] < window then starts else starts + [now]
  }

  function StartsOf(spans: seq<Span>): (starts: seq<int>)
    ensures |starts| == |spans| && forall i :: 0 <= i < |spans| ==> starts[i] == spans[i].start
  {
    seq(|spans|, i requires 0 <= i < |spans| => spans[i].start)
  }

  /** The windows in the proofs are those the admissions alone determine. */
  ghost predicate Told(c: Cap, w: World, node: string)
  {
    StartsOf(Spans(w, node)) == Starts(Admitted(w, node), c.window)
  }

  /** The window an admission falls into: the newest one, or a new one that begins now. */
  lemma AdmissionOpens(c: Cap, w: World, clock: int, node: string, id: string, now: int)
    requires c.limit > 0 && c.window > 0 && NodeOk(c, w, node, clock) && clock <= now && Admits(c, w.m, node, id, now)
    ensures var spans, s := Spans(w, node), After(c, w.m, node, id, now)[node];
            if spans != [] && now < spans[|spans| - 1].start + c.window
            then var last := spans[|spans| - 1]; s == Span(last.start, last.ids + {id}) && last.start <= now
            else s == Span(now, {id}) && (spans != [] ==> spans[|spans| - 1].start != now)
  {
    var spans, s := Spans(w, node), After(c, w.m, node, id, now)[node];
    if node in w.m {
      assert spans[|spans| - 1] == w.m[node] && w.m[node].start <= clock;
    }
    assert s == Span(Open(c, w.m, node, now).start, Open(c, w.m, node, now).ids + {id});
  }

  lemma AfterHas(c: Cap, m: Seen, node: string, id: string, now: int)
    requires c.limit > 0
    ensures node in After(c, m, node, id, now)
  {
  }

  lemma AdmissionGrows(c: Cap, w: World, node: string, id: string, now: int)
    requires c.limit > 0 && Admits(c, w.m, node, id, now)
    ensures var w' := Apply(c, w, Allow(node, id, now));
            && Spans(w', node) == Extend(Spans(w, node), After(c, w.m, node, id, now)[node])
            && Admitted(w', node) == Admitted(w, node) + [(id, now)]
  {
  }

  lemma OthersGrowNothing(c: Cap, w: World, op: Op, node: string)
    requires c.limit > 0 && (op.Allow? ==> op.node != node || !Admits(c, w.m, node, op.id, op.now))
    ensures var w' := Apply(c, w, op);
            Spans(w', node) == Spans(w, node) && Admitted(w', node) == Admitted(w, node)
  {
  }

  lemma StartsMore(all: seq<(string, int)>, a: (string, int), window: int)
    ensures var starts := Starts(all, window);
            Starts(all + [a], window)
            == (if starts != [] && a.1 - starts[|starts| - 1] < window then starts else starts + [a.1])
  {
    assert (all + [a])[..|all|] == all;
  }

  lemma ApplyKeepsTold(c: Cap, w: World, clock: int, op: Op, node: string)
    requires c.limit > 0 && c.window > 0 && NodeOk(c, w, node, clock) && clock <= op.now && Told(c, w, node)
    ensures Told(c, Apply(c, w, op), node)
  {
    hide NodeOk, After, Admits, Apply, Spans, Admitted, Starts;
    if op.Allow? && op.node == node && Admits(c, w.m, node, op.id, op.now) {
      assert node in After(c, w.m, node, op.id, op.now) by { AfterHas(c, w.m, node, op.id, op.now); }
      AdmissionOpens(c, w, clock, node, op.id, op.now);
      AdmissionGrows(c, w, node, op.id, op.now);
      var spans, s := Spans(w, node), After(c, w.m, node, op.id, op.now)[node];
      StartsMore(Admitted(w, node), (op.id, op.now), c.window);
      var starts := StartsOf(spans);
      assert spans != [] ==> starts[|starts| - 1] == spans[|spans| - 1].start;
      if spans != [] && spans[|spans| - 1].start == s.start {
        assert StartsOf(Extend(spans, s)) == starts;
      } else {
        assert StartsOf(Extend(spans, s)) == starts + [s.start];
      }
    } else {
      OthersGrowNothing(c, w, op, node);
    }
  }

  /** A run, as the proofs follow it and as it is seen from outside. */
  lemma {:induction false} RunIsSeen(c: Cap, w: World, clock: int, ops: seq<Op>, node: string)
    requires c.limit > 0 && c.window > 0 && Ok(c, w, clock) && Told(c, w, node) && InOrder(clock, ops)
    ensures var after := Run(c, w, ops);
            && after.m == NextAll(c, w.m, ops) && Told(c, after, node)
            && Admitted(after, node) == Admitted(w, node) + Accepted(c, w.m, ops, node)
    decreases |ops|
  {
    if ops == [] {
      assert Admitted(w, node) + [] == Admitted(w, node);
    } else {
      var op := ops[0];
      ApplyKeepsOk(c, w, clock, op);
      assert NodeOk(c, w, node, clock);
      ApplyKeepsTold(c, w, clock, op, node);
      ApplyIsSeen(c, w, op, node);
      hide Ok, Told, Apply, Next, Answer, Admitted, NodeOk;
      RunIsSeen(c, Apply(c, w, op), op.now, ops[1..], node);
      var one := if op.Allow? && op.node == node && Answer(c, w.m, op) then [(op.id, op.now)] else [];
      Associative(Admitted(w, node), one, Accepted(c, Next(c, w.m, op), ops[1..], node));
    }
  }

  lemma ApplyIsSeen(c: Cap, w: World, op: Op, node: string)
    requires c.limit > 0
    ensures Apply(c, w, op).m == Next(c, w.m, op)
    ensures Admitted(Apply(c, w, op), node) == Admitted(w, node)
              + if op.Allow? && op.node == node && Answer(c, w.m, op) then [(op.id, op.now)] else []
  {
  }

  lemma Associative(a: seq<(string, int)>, b: seq<(string, int)>, c: seq<(string, int)>)
    ensures a + b + c == a + (b + c)
  {
  }

  lemma NewIsSeen(c: Cap, clock: int, ops: seq<Op>, node: string)
    requires c.limit > 0 && c.window > 0 && InOrder(clock, ops)
    ensures var w, all := Run(c, NEW, ops), Accepted(c, map[], ops, node);
            && NodeOk(c, w, node, End(clock, ops)) && w.m == NextAll(c, map[], ops)
            && Admitted(w, node) == all && StartsOf(Spans(w, node)) == Starts(all, c.window)
  {
    RunKeepsOk(c, NEW, clock, ops);
    RunIsSeen(c, NEW, clock, ops, node);
    assert Ok(c, Run(c, NEW, ops), End(clock, ops));
    assert [] + Accepted(c, map[], ops, node) == Accepted(c, map[], ops, node);
  }

  // ---- Bounds ----

  /** The identities a node was admitted for at times from `x` up to, not including, `y`. */
  function Within(admitted: seq<(string, int)>, x: int, y: int): set<string>
  {
    set i | 0 <= i < |admitted| && x <= admitted[i].1 < y :: admitted[i].0
  }

  /** The windows that can hold an admission of the interval, at most two of them. */
  ghost function Meeting(spans: seq<Span>, from: int): (i: nat)
    ensures i <= |spans| && (forall j :: 0 <= j < i ==> spans[j].start <= from)
    ensures (i < |spans| ==> spans[i].start > from)
  {
    if spans == [] || spans[0].start > from then 0 else 1 + Meeting(spans[1..], from)
  }

  function Ids(spans: seq<Span>, i: nat): set<string>
  {
    if i < |spans| then spans[i].ids else {}
  }

  lemma TwoWindowsCover(c: Cap, spans: seq<Span>, clock: int, a: (string, int), x: int)
    requires SpansOk(c, spans, clock) && Covered(c, spans, a) && x <= a.1 < x + c.window
    ensures var i := Meeting(spans, x - c.window); a.0 in Ids(spans, i) + Ids(spans, i + 1)
  {
  }

  lemma UnionBound(a: set<string>, b: set<string>, s: set<string>, n: nat)
    requires s <= a + b && |a| <= n && |b| <= n
    ensures |s| <= 2 * n
  {
    assert |a + b| == |a| + |b| - |a * b|;
    SubsetSize(s, a + b);
  }

  lemma {:induction false} SubsetSize(s: set<string>, t: set<string>)
    requires s <= t
    ensures |s| <= |t|
    decreases s
  {
    if s != {} {
      var x :| x in s;
      SubsetSize(s - {x}, t - {x});
    }
  }

  lemma TwoWindowsHold(c: Cap, w: World, node: string, clock: int, x: int)
    requires NodeOk(c, w, node, clock)
    ensures |Within(Admitted(w, node), x, x + c.window)| <= 2 * c.limit
  {
    var spans, all := Spans(w, node), Admitted(w, node);
    var i := Meeting(spans, x - c.window);
    forall k | 0 <= k < |all| && x <= all[k].1 < x + c.window ensures all[k].0 in Ids(spans, i) + Ids(spans, i + 1) {
      TwoWindowsCover(c, spans, clock, all[k], x);
    }
    UnionBound(Ids(spans, i), Ids(spans, i + 1), Within(all, x, x + c.window), c.limit);
  }

  /** After any run in order, at most twice the limit of distinct identities admitted in any interval of
      one window length. */
  lemma AtMostTwiceTheLimit(c: Cap, clock: int, ops: seq<Op>, node: string, x: int)
    requires c.limit > 0 && c.window > 0 && InOrder(clock, ops)
    ensures |Within(Accepted(c, map[], ops, node), x, x + c.window)| <= 2 * c.limit
  {
    hide *;
    NewIsSeen(c, clock, ops, node);
    TwoWindowsHold(c, Run(c, NEW, ops), node, End(clock, ops), x);
  }

  /** After any run in order, no window of a node admitted more than the limit. */
  lemma AtMostLimitPerWindow(c: Cap, clock: int, ops: seq<Op>, node: string, i: nat)
    requires c.limit > 0 && c.window > 0 && InOrder(clock, ops)
    requires i < |Starts(Accepted(c, map[], ops, node), c.window)|
    ensures var all := Accepted(c, map[], ops, node);
            var start := Starts(all, c.window)[i];
            |Within(all, start, start + c.window)| <= c.limit
  {
    hide Run, Accepted, InOrder, Within, Starts, NodeOk, Spans, Admitted;
    NewIsSeen(c, clock, ops, node);
    WindowHolds(c, Run(c, NEW, ops), node, End(clock, ops), i);
  }

  lemma WindowHolds(c: Cap, w: World, node: string, clock: int, i: nat)
    requires NodeOk(c, w, node, clock) && i < |Spans(w, node)|
    ensures var start := Spans(w, node)[i].start;
            |Within(Admitted(w, node), start, start + c.window)| <= c.limit
  {
    hide Within;
    WindowIds(c, w, node, clock, i);
    var spans := Spans(w, node);
    var start := spans[i].start;
    SubsetSize(Within(Admitted(w, node), start, start + c.window), spans[i].ids);
  }

  lemma WindowIds(c: Cap, w: World, node: string, clock: int, i: nat)
    requires NodeOk(c, w, node, clock) && i < |Spans(w, node)|
    ensures var start := Spans(w, node)[i].start;
            Within(Admitted(w, node), start, start + c.window) <= Spans(w, node)[i].ids
  {
    var spans, all := Spans(w, node), Admitted(w, node);
    var start := spans[i].start;
    forall k | 0 <= k < |all| && start <= all[k].1 < start + c.window ensures all[k].0 in spans[i].ids {
      assert Covered(c, spans, all[k]);
      OneWindowCovers(c, spans, clock, all[k], i);
    }
  }

  lemma OneWindowCovers(c: Cap, spans: seq<Span>, clock: int, a: (string, int), i: nat)
    requires SpansOk(c, spans, clock) && Covered(c, spans, a)
    requires i < |spans| && spans[i].start <= a.1 < spans[i].start + c.window
    ensures a.0 in spans[i].ids
  {
  }

  /** An identity admitted in a window of its node is admitted again at any later time of that window,
      whatever was asked, refused or swept in between. */
  lemma ReadmittedInWindow(c: Cap, clock: int, ops: seq<Op>, node: string, k: nat, i: nat, now: int)
    requires InOrder(clock, ops) && End(clock, ops) <= now
    requires var all := Accepted(c, map[], ops, node);
             && k < |all| && i < |Starts(all, c.window)|
             && var start := Starts(all, c.window)[i];
                start <= all[k].1 < start + c.window && start <= now < start + c.window
    ensures Admits(c, NextAll(c, map[], ops), node, Accepted(c, map[], ops, node)[k].0, now)
  {
    if c.limit > 0 {
      hide *;
      NewIsSeen(c, clock, ops, node);
      StillWelcome(c, Run(c, NEW, ops), node, End(clock, ops), k, i, now);
    }
  }

  lemma StillWelcome(c: Cap, w: World, node: string, clock: int, k: nat, i: nat, now: int)
    requires c.limit > 0 && NodeOk(c, w, node, clock) && clock <= now
    requires k < |Admitted(w, node)| && i < |Spans(w, node)|
    requires var start, at := Spans(w, node)[i].start, Admitted(w, node)[k].1;
             start <= at < start + c.window && start <= now < start + c.window
    ensures Admits(c, w.m, node, Admitted(w, node)[k].0, now)
  {
    var spans := Spans(w, node);
    OneWindowCovers(c, spans, clock, Admitted(w, node)[k], i);
    assert i == |spans| - 1;
  }

  /** The identities of the newest window are exactly those admitted in it. */
  ghost predicate NewestOk(c: Cap, w: World, node: string)
  {
    var spans := Spans(w, node);
    spans != [] ==>
      var last := spans[|spans| - 1];
      last.ids == Within(Admitted(w, node), last.start, last.start + c.window)
  }

  lemma WithinMore(all: seq<(string, int)>, a: (string, int), x: int, y: int)
    ensures Within(all + [a], x, y) == Within(all, x, y) + if x <= a.1 < y then {a.0} else {}
  {
    var more := all + [a];
    assert forall i :: 0 <= i < |all| ==> more[i] == all[i];
    assert more[|all|] == a;
  }

  lemma {:induction false} NothingWithin(all: seq<(string, int)>, x: int, y: int)
    requires forall i :: 0 <= i < |all| ==> all[i].1 < x
    ensures Within(all, x, y) == {}
  {
  }

  /** Admissions so far lie before the end of the newest window, none after `clock`. */
  lemma AdmittedBefore(c: Cap, w: World, node: string, clock: int, k: nat)
    requires NodeOk(c, w, node, clock) && k < |Admitted(w, node)|
    ensures var spans := Spans(w, node); spans != [] && Admitted(w, node)[k].1 < spans[|spans| - 1].start + c.window
  {
    assert Covered(c, Spans(w, node), Admitted(w, node)[k]);
  }

  lemma AdmissionKeepsNewest(c: Cap, w: World, clock: int, node: string, id: string, now: int)
    requires c.limit > 0 && c.window > 0 && NodeOk(c, w, node, clock) && clock <= now && NewestOk(c, w, node)
    requires Admits(c, w.m, node, id, now)
    ensures NewestOk(c, Apply(c, w, Allow(node, id, now)), node)
  {
    hide NodeOk, After, Admits, Within, Apply, Spans, Admitted;
    AfterHas(c, w.m, node, id, now);
    AdmissionOpens(c, w, clock, node, id, now);
    var spans, all, s := Spans(w, node), Admitted(w, node), After(c, w.m, node, id, now)[node];
    WithinMore(all, (id, now), s.start, s.start + c.window);
    if spans == [] || now >= spans[|spans| - 1].start + c.window {
      forall k | 0 <= k < |all| ensures all[k].1 < now {
        AdmittedBefore(c, w, node, clock, k);
      }
      NothingWithin(all, now, now + c.window);
    }
    AdmissionGrows(c, w, node, id, now);
    assert Extend(spans, s)[|Extend(spans, s)| - 1] == s;
  }

  lemma ApplyKeepsNewest(c: Cap, w: World, clock: int, op: Op, node: string)
    requires c.limit > 0 && c.window > 0 && NodeOk(c, w, node, clock) && clock <= op.now && NewestOk(c, w, node)
    ensures NewestOk(c, Apply(c, w, op), node)
  {
    if op.Allow? && op.node == node && Admits(c, w.m, node, op.id, op.now) {
      AdmissionKeepsNewest(c, w, clock, node, op.id, op.now);
    } else {
      OthersGrowNothing(c, w, op, node);
    }
  }

  lemma {:induction false} RunKeepsNewest(c: Cap, w: World, clock: int, ops: seq<Op>, node: string)
    requires c.limit > 0 && c.window > 0 && Ok(c, w, clock) && NewestOk(c, w, node) && InOrder(clock, ops)
    ensures NewestOk(c, Run(c, w, ops), node)
    decreases |ops|
  {
    if ops != [] {
      assert NodeOk(c, w, node, clock);
      ApplyKeepsNewest(c, w, clock, ops[0], node);
      ApplyKeepsOk(c, w, clock, ops[0]);
      hide Ok, NewestOk, Apply;
      RunKeepsNewest(c, Apply(c, w, ops[0]), ops[0].now, ops[1..], node);
    }
  }

  /** Exactly who is admitted, in terms of earlier admissions alone: anybody once the newest window is over,
      and until then those admitted in it and, while they are fewer than the limit, anybody. */
  ghost predicate Welcome(c: Cap, admitted: seq<(string, int)>, id: string, now: int)
  {
    var starts := Starts(admitted, c.window);
    || c.limit == 0 || starts == [] || now >= starts[|starts| - 1] + c.window
    || var start := starts[|starts| - 1];
       var ids := Within(admitted, start, start + c.window);
       id in ids || |ids| < c.limit
  }

  lemma NodeAdmits(c: Cap, w: World, node: string, clock: int, id: string, now: int)
    requires c.limit > 0 && c.window > 0 && NodeOk(c, w, node, clock) && Told(c, w, node) && NewestOk(c, w, node)
    requires clock <= now
    ensures Admits(c, w.m, node, id, now) <==> Welcome(c, Admitted(w, node), id, now)
  {
    hide Within, Covered, Starts, SpansOk;
    var spans, starts := Spans(w, node), StartsOf(Spans(w, node));
    assert starts == Starts(Admitted(w, node), c.window);
    if spans != [] {
      assert starts[|starts| - 1] == spans[|spans| - 1].start;
    }
  }

  lemma AdmitsIff(c: Cap, clock: int, ops: seq<Op>, node: string, id: string, now: int)
    requires c.window > 0 && InOrder(clock, ops) && End(clock, ops) <= now
    ensures Admits(c, NextAll(c, map[], ops), node, id, now) <==> Welcome(c, Accepted(c, map[], ops, node), id, now)
  {
    if c.limit > 0 {
      var w := Run(c, NEW, ops);
      assert NewestOk(c, NEW, node) && Ok(c, NEW, clock);
      assert StartsOf(Spans(w, node)) == Starts(Admitted(w, node), c.window) ==> Told(c, w, node);
      hide *;
      NewIsSeen(c, clock, ops, node);
      RunKeepsNewest(c, NEW, clock, ops, node);
      NodeAdmits(c, Run(c, NEW, ops), node, End(clock, ops), id, now);
    }
  }

  // ---- Sweeping ----

  /** A sweep leaves exactly the nodes whose newest window is still under way. */
  lemma SweepForgetsIdle(c: Cap, clock: int, ops: seq<Op>, node: string, now: int)
    requires c.limit > 0 && c.window > 0 && InOrder(clock, ops) && End(clock, ops) <= now
    ensures node in Swept(c, NextAll(c, map[], ops), now) <==>
              var starts := Starts(Accepted(c, map[], ops, node), c.window);
              starts != [] && now < starts[|starts| - 1] + c.window
  {
    hide Run, Accepted, Starts, NextAll, InOrder, SpansOk, Covered;
    NewIsSeen(c, clock, ops, node);
    var w := Run(c, NEW, ops);
    assert |StartsOf(Spans(w, node))| == |Spans(w, node)|;
  }

  /** Without a limit nothing is kept. */
  lemma {:induction false} OffKeepsNothing(c: Cap, ops: seq<Op>)
    requires c.limit == 0
    ensures NextAll(c, map[], ops) == map[]
    decreases |ops|
  {
    if ops != [] {
      OffKeepsNothing(c, ops[1..]);
    }
  }

  /** The limiters hold the same windows still under way at `now`. */
  ghost predicate Alike(c: Cap, m: Seen, m': Seen, now: int)
  {
    forall node :: Live(c, m, node, now) == Live(c, m', node, now)
  }

  function Live(c: Cap, m: Seen, node: string, now: int): Option<Span>
  {
    if node in m && now - m[node].start < c.window then Some(m[node]) else None
  }

  function Answers(c: Cap, m: Seen, ops: seq<Op>): seq<bool>
    decreases |ops|
  {
    if ops == [] then [] else [Answer(c, m, ops[0])] + Answers(c, Next(c, m, ops[0]), ops[1..])
  }

  lemma AlikeStep(c: Cap, m: Seen, m': Seen, clock: int, op: Op)
    requires Alike(c, m, m', clock) && clock <= op.now
    ensures Answer(c, m, op) == Answer(c, m', op) && Alike(c, Next(c, m, op), Next(c, m', op), op.now)
  {
    forall node ensures Live(c, m, node, op.now) == Live(c, m', node, op.now) {
      assert Live(c, m, node, clock) == Live(c, m', node, clock);
    }
    if op.Allow? {
      assert Live(c, m, op.node, op.now) == Live(c, m', op.node, op.now);
      assert Open(c, m, op.node, op.now) == Open(c, m', op.node, op.now);
    }
    forall node ensures Live(c, Next(c, m, op), node, op.now) == Live(c, Next(c, m', op), node, op.now) {
      assert Live(c, m, node, op.now) == Live(c, m', node, op.now);
    }
  }

  lemma {:induction false} AlikeAnswers(c: Cap, m: Seen, m': Seen, clock: int, ops: seq<Op>)
    requires Alike(c, m, m', clock) && InOrder(clock, ops)
    ensures Answers(c, m, ops) == Answers(c, m', ops)
    decreases |ops|
  {
    if ops != [] {
      AlikeStep(c, m, m', clock, ops[0]);
      AlikeAnswers(c, Next(c, m, ops[0]), Next(c, m', ops[0]), ops[0].now, ops[1..]);
    }
  }

  /** A sweep never changes a later answer. */
  lemma SweepIsInvisible(c: Cap, m: Seen, now: int, ops: seq<Op>)
    requires InOrder(now, ops)
    ensures Answers(c, Swept(c, m, now), ops) == Answers(c, m, ops)
  {
    assert Alike(c, Swept(c, m, now), m, now);
    AlikeAnswers(c, Swept(c, m, now), m, now, ops);
  }

  // ---- From any state ----

  /** The node's window began at `start` and holds the identity. */
  predicate Holds(m: Seen, node: string, id: string, start: int)
  {
    node in m && m[node].start == start && id in m[node].ids
  }

  lemma {:induction false} HeldInWindow(c: Cap, m: Seen, clock: int, ops: seq<Op>, node: string, id: string, start: int)
    requires c.limit > 0 && Holds(m, node, id, start) && InOrder(clock, ops) && End(clock, ops) < start + c.window
    ensures Holds(NextAll(c, m, ops), node, id, start)
    decreases |ops|
  {
    if ops != [] {
      InOrderEnds(clock, ops);
      HeldInWindow(c, Next(c, m, ops[0]), ops[0].now, ops[1..], node, id, start);
    }
  }

  lemma {:induction false} InOrderEnds(clock: int, ops: seq<Op>)
    requires InOrder(clock, ops)
    ensures clock <= End(clock, ops) && (ops != [] ==> ops[0].now <= End(clock, ops) == End(ops[0].now, ops[1..]))
    decreases |ops|
  {
    if ops != [] {
      InOrderEnds(ops[0].now, ops[1..]);
    }
  }

  /** The same from any state of the limiter, reached by a run or not: whatever comes between, the identity
      just admitted is admitted again until the window then under way is over. */
  lemma ReadmittedFromAnyState(c: Cap, m: Seen, node: string, id: string, now: int, ops: seq<Op>, later: int)
    requires Admits(c, m, node, id, now) && InOrder(now, ops) && End(now, ops) <= later
    requires later < Open(c, m, node, now).start + c.window
    ensures Admits(c, NextAll(c, After(c, m, node, id, now), ops), node, id, later)
  {
    if c.limit > 0 {
      HeldInWindow(c, After(c, m, node, id, now), now, ops, node, id, Open(c, m, node, now).start);
    }
  }
}
