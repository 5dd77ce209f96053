/**
 Module initialisation: each API names the APIs it DEPENDS on, which are
 initialised before it, and the APIs it IMPORTS, which are initialised after it.
 DEPENDS edges must not form a cycle; IMPORTS edges may.

 An API is identified by its deinitialisation function, as in the registry.
 */
module ToolkitInit {
  import opened Wrappers

  type Api = nat

  /** `height` witnesses that DEPENDS is acyclic; `top` lies above every height. */
  datatype Graph = Graph(
    universe: set<Api>,
    depends: Api -> seq<Api>,
    imports: Api -> seq<Api>,
    height: Api -> nat,
    top: nat)

  ghost predicate WellFormed(g: Graph) {
    && (forall a, d :: a in g.universe && d in g.depends(a) ==> d in g.universe && g.height(d) < g.height(a))
    && (forall a, i :: a in g.universe && i in g.imports(a) ==> i in g.universe)
    && (forall a :: a in g.universe ==> g.height(a) < g.top)
  }

  /** The registry, and the initialisation bodies that have run, both in order. */
  datatype Registry = Registry(apis: seq<Api>, runs: seq<Api>)

  ghost predicate Within(g: Graph, s: Registry) {
    forall a :: a in s.apis ==> a in g.universe
  }

  ghost function Missing(g: Graph, s: Registry): set<Api> {
    set a | a in g.universe && a !in s.apis
  }

  /** Registration is skipped for a known API; the body runs all the same. */
  function Register(s: Registry, a: Api): Registry {
    Registry(if a in s.apis then s.apis else s.apis + [a], s.runs + [a])
  }

  /** Registration only appends. */
  ghost predicate Grows(s: Registry, s': Registry) {
    s.apis <= s'.apis && s.runs <= s'.runs
  }

  lemma RegisteredStays(s: Registry, s': Registry, a: Api)
    requires Grows(s, s') && a in s.apis
    ensures a in s'.apis
  {
    var i :| 0 <= i < |s.apis| && s.apis[i] == a;
    assert s'.apis[i] == a;
  }

  lemma MissingShrinks(g: Graph, s: Registry, s': Registry, a: Api)
    requires Grows(s, s')
    ensures Missing(g, s') <= Missing(g, s)
    ensures a in g.universe && a !in s.apis && a in s'.apis ==> Missing(g, s') < Missing(g, s)
  {
    assert forall x :: x in s.apis ==> x in s'.apis;
    assert a in g.universe && a !in s.apis && a in s'.apis ==> a in Missing(g, s) && a !in Missing(g, s');
  }

  ghost function Init(g: Graph, s: Registry, a: Api): (s': Registry)
    requires WellFormed(g) && Within(g, s) && a in g.universe
    ensures Within(g, s') && Grows(s, s') && a in s'.apis
    decreases Missing(g, s), g.height(a) + 1, 0
  {
    if a in s.apis then s
    else
      var s1 := InitAll(g, s, g.depends(a), g.height(a));
      var s2 := Register(s1, a);
      MissingShrinks(g, s, s2, a);
      var s3 := InitAll(g, s2, g.imports(a), g.top);
      RegisteredStays(s2, s3, a);
      s3
  }

  ghost function InitAll(g: Graph, s: Registry, apis: seq<Api>, bound: nat): (s': Registry)
    requires WellFormed(g) && Within(g, s)
    requires forall a :: a in apis ==> a in g.universe && g.height(a) < bound
    ensures Within(g, s') && Grows(s, s') && forall a :: a in apis ==> a in s'.apis
    decreases Missing(g, s), bound, |apis|
  {
    if apis == [] then s
    else
      var s1 := Init(g, s, apis[0]);
      MissingShrinks(g, s, s1, apis[0]);
      InitAll(g, s1, apis[1..], bound)
  }

  // ---------------------------------------------------------------- order

  ghost predicate DependsBefore(g: Graph, apis: seq<Api>, i: nat)
    requires i < |apis|
  {
    forall d :: d in g.depends(apis[i]) ==> d in apis[..i]
  }

  /** Each API appears once, after everything it depends on. */
  ghost predicate Ordered(g: Graph, apis: seq<Api>) {
    NoRepeats(apis) && forall i :: 0 <= i < |apis| ==> DependsBefore(g, apis, i)
  }

  lemma RegisterOrdered(g: Graph, s: Registry, a: Api)
    requires Ordered(g, s.apis)
    requires forall d :: d in g.depends(a) ==> d in s.apis
    ensures Ordered(g, Register(s, a).apis)
  {
    var apis := Register(s, a).apis;
    forall i | 0 <= i < |apis| ensures DependsBefore(g, apis, i) {
      if i < |s.apis| {
        assert DependsBefore(g, s.apis, i) && apis[..i] == s.apis[..i];
      } else {
        assert apis[..i] == s.apis;
      }
    }
  }

  /** Importing keeps the registry in dependency order, whatever the IMPORTS edges are. */
  lemma {:induction false} InitOrdered(g: Graph, s: Registry, a: Api)
    requires WellFormed(g) && Within(g, s) && a in g.universe && Ordered(g, s.apis)
    ensures Ordered(g, Init(g, s, a).apis)
    decreases Missing(g, s), g.height(a) + 1, 0
  {
    if a !in s.apis {
      var s1 := InitAll(g, s, g.depends(a), g.height(a));
      InitAllOrdered(g, s, g.depends(a), g.height(a));
      RegisterOrdered(g, s1, a);
      var s2 := Register(s1, a);
      MissingShrinks(g, s, s2, a);
      InitAllOrdered(g, s2, g.imports(a), g.top);
    }
  }

  lemma {:induction false} InitAllOrdered(g: Graph, s: Registry, apis: seq<Api>, bound: nat)
    requires WellFormed(g) && Within(g, s) && Ordered(g, s.apis)
    requires forall a :: a in apis ==> a in g.universe && g.height(a) < bound
    ensures Ordered(g, InitAll(g, s, apis, bound).apis)
    decreases Missing(g, s), bound, |apis|
  {
    if apis != [] {
      InitOrdered(g, s, apis[0]);
      var s1 := Init(g, s, apis[0]);
      MissingShrinks(g, s, s1, apis[0]);
      InitAllOrdered(g, s1, apis[1..], bound);
    }
  }

  // ---------------------------------------------------------------- closure

  ghost predicate ImportsIn(g: Graph, apis: seq<Api>, a: Api) {
    forall i :: i in g.imports(a) ==> i in apis
  }

  /** Every registered API outside `pending` has all its imports registered. */
  ghost predicate ClosedBut(g: Graph, apis: seq<Api>, pending: set<Api>) {
    forall a :: a in apis && a !in pending ==> ImportsIn(g, apis, a)
  }

  /**
   Importing leaves behind no API whose imports are missing, other than those
   whose own initialisation is still under way.
   */
  lemma {:induction false} InitClosed(g: Graph, s: Registry, a: Api, pending: set<Api>)
    requires WellFormed(g) && Within(g, s) && a in g.universe && ClosedBut(g, s.apis, pending)
    ensures ClosedBut(g, Init(g, s, a).apis, pending)
    decreases Missing(g, s), g.height(a) + 1, 0
  {
    if a !in s.apis {
      var s1 := InitAll(g, s, g.depends(a), g.height(a));
      InitAllClosed(g, s, g.depends(a), g.height(a), pending);
      var s2 := Register(s1, a);
      forall x | x in s2.apis && x !in pending + {a} ensures ImportsIn(g, s2.apis, x) {
        assert x in s1.apis && ImportsIn(g, s1.apis, x);
      }
      MissingShrinks(g, s, s2, a);
      InitAllClosed(g, s2, g.imports(a), g.top, pending + {a});
      var s3 := InitAll(g, s2, g.imports(a), g.top);
      forall x | x in s3.apis && x !in pending ensures ImportsIn(g, s3.apis, x) {
        assert x != a ==> x !in pending + {a};
      }
    }
  }

  lemma {:induction false} InitAllClosed(g: Graph, s: Registry, apis: seq<Api>, bound: nat, pending: set<Api>)
    requires WellFormed(g) && Within(g, s) && ClosedBut(g, s.apis, pending)
    requires forall a :: a in apis ==> a in g.universe && g.height(a) < bound
    ensures ClosedBut(g, InitAll(g, s, apis, bound).apis, pending)
    decreases Missing(g, s), bound, |apis|
  {
    if apis != [] {
      InitClosed(g, s, apis[0], pending);
      var s1 := Init(g, s, apis[0]);
      MissingShrinks(g, s, s1, apis[0]);
      InitAllClosed(g, s1, apis[1..], bound, pending);
    }
  }

  /** Nothing registered leads outside the registry. */
  ghost predicate Closed(g: Graph, apis: seq<Api>) {
    Ordered(g, apis) && ClosedBut(g, apis, {})
  }

  /** A top-level import of any API keeps the registry ordered and closed under both kinds of edge. */
  lemma ImportKeepsClosed(g: Graph, s: Registry, a: Api)
    requires WellFormed(g) && Within(g, s) && a in g.universe && Closed(g, s.apis)
    ensures Closed(g, Init(g, s, a).apis) && a in Init(g, s, a).apis
  {
    InitOrdered(g, s, a);
    InitClosed(g, s, a, {});
  }

  // ---------------------------------------------------------------- reachability

  ghost predicate Edge(g: Graph, a: Api, b: Api) {
    b in g.depends(a) || b in g.imports(a)
  }

  /** A walk along edges of either kind. */
  ghost predicate Walk(g: Graph, p: seq<Api>) {
    p != [] && forall i :: 0 <= i < |p| - 1 ==> Edge(g, p[i], p[i + 1])
  }

  ghost predicate Leads(g: Graph, a: Api, b: Api) {
    exists p :: Walk(g, p) && p[0] == a && p[|p| - 1] == b
  }

  lemma LeadsItself(g: Graph, a: Api)
    ensures Leads(g, a, a)
  {
    assert Walk(g, [a]);
  }

  lemma LeadsOn(g: Graph, a: Api, b: Api, c: Api)
    requires Edge(g, a, b) && Leads(g, b, c)
    ensures Leads(g, a, c)
  {
    var p :| Walk(g, p) && p[0] == b && p[|p| - 1] == c;
    var q := [a] + p;
    forall i | 0 <= i < |q| - 1 ensures Edge(g, q[i], q[i + 1]) {
      assert i > 0 ==> Edge(g, p[i - 1], p[i]);
    }
    assert Walk(g, q);
  }

  lemma {:induction false} ClosedLeads(g: Graph, apis: seq<Api>, p: seq<Api>)
    requires Closed(g, apis) && Walk(g, p) && p[0] in apis
    ensures p[|p| - 1] in apis
    decreases |p|
  {
    if |p| > 1 {
      assert Edge(g, p[0], p[1]);
      var i :| 0 <= i < |apis| && apis[i] == p[0];
      assert DependsBefore(g, apis, i) && ImportsIn(g, apis, p[0]);
      assert Walk(g, p[1..]) by {
        assert forall k :: 0 <= k < |p| - 2 ==> p[1..][k] == p[k + 1] && Edge(g, p[k + 1], p[k + 2]);
      }
      ClosedLeads(g, apis, p[1..]);
    }
  }

  /** Whatever importing `a` registers, `a` leads to. */
  ghost predicate Accounted(g: Graph, s: Registry, s': Registry, roots: seq<Api>) {
    forall x :: x in s'.apis && x !in s.apis ==> exists a :: a in roots && Leads(g, a, x)
  }

  lemma {:induction false} InitAccounted(g: Graph, s: Registry, a: Api)
    requires WellFormed(g) && Within(g, s) && a in g.universe
    ensures Accounted(g, s, Init(g, s, a), [a])
    decreases Missing(g, s), g.height(a) + 1, 0
  {
    if a !in s.apis {
      var s1 := InitAll(g, s, g.depends(a), g.height(a));
      InitAllAccounted(g, s, g.depends(a), g.height(a));
      var s2 := Register(s1, a);
      MissingShrinks(g, s, s2, a);
      InitAllAccounted(g, s2, g.imports(a), g.top);
      var s3 := InitAll(g, s2, g.imports(a), g.top);
      LeadsItself(g, a);
      forall x | x in s3.apis && x !in s.apis ensures exists b :: b in [a] && Leads(g, b, x) {
        if x in s1.apis {
          var d :| d in g.depends(a) && Leads(g, d, x);
          LeadsOn(g, a, d, x);
        } else if x !in s2.apis {
          var i :| i in g.imports(a) && Leads(g, i, x);
          LeadsOn(g, a, i, x);
        }
        assert a in [a];
      }
    }
  }

  lemma {:induction false} InitAllAccounted(g: Graph, s: Registry, apis: seq<Api>, bound: nat)
    requires WellFormed(g) && Within(g, s)
    requires forall a :: a in apis ==> a in g.universe && g.height(a) < bound
    ensures Accounted(g, s, InitAll(g, s, apis, bound), apis)
    decreases Missing(g, s), bound, |apis|
  {
    if apis != [] {
      InitAccounted(g, s, apis[0]);
      var s1 := Init(g, s, apis[0]);
      MissingShrinks(g, s, s1, apis[0]);
      InitAllAccounted(g, s1, apis[1..], bound);
    }
  }

  // ---------------------------------------------------------------- how often a body runs

  /** `a` depends on something that leads back to `a`. */
  ghost predicate MixedCycle(g: Graph, a: Api) {
    exists d :: d in g.depends(a) && Leads(g, d, a)
  }

  /** Without mixed cycles bodies run exactly once each, in the order of registration. */
  lemma {:induction false} InitRunsOnce(g: Graph, s: Registry, a: Api)
    requires WellFormed(g) && Within(g, s) && a in g.universe
    requires forall x :: x in g.universe ==> !MixedCycle(g, x)
    requires s.runs == s.apis
    ensures Init(g, s, a).runs == Init(g, s, a).apis
    decreases Missing(g, s), g.height(a) + 1, 0
  {
    if a !in s.apis {
      var s1 := InitAll(g, s, g.depends(a), g.height(a));
      InitAllRunsOnce(g, s, g.depends(a), g.height(a));
      InitAllAccounted(g, s, g.depends(a), g.height(a));
      assert !MixedCycle(g, a);
      assert a !in s1.apis;
      var s2 := Register(s1, a);
      MissingShrinks(g, s, s2, a);
      InitAllRunsOnce(g, s2, g.imports(a), g.top);
    }
  }

  lemma {:induction false} InitAllRunsOnce(g: Graph, s: Registry, apis: seq<Api>, bound: nat)
    requires WellFormed(g) && Within(g, s)
    requires forall a :: a in apis ==> a in g.universe && g.height(a) < bound
    requires forall x :: x in g.universe ==> !MixedCycle(g, x)
    requires s.runs == s.apis
    ensures InitAll(g, s, apis, bound).runs == InitAll(g, s, apis, bound).apis
    decreases Missing(g, s), bound, |apis|
  {
    if apis != [] {
      InitRunsOnce(g, s, apis[0]);
      var s1 := Init(g, s, apis[0]);
      MissingShrinks(g, s, s1, apis[0]);
      InitAllRunsOnce(g, s1, apis[1..], bound);
    }
  }

  /** The body of `a` ran at least twice. */
  ghost predicate RunsTwice(runs: seq<Api>, a: Api) {
    exists i, j :: 0 <= i < j < |runs| && runs[i] == a && runs[j] == a
  }

  lemma RepeatedBody(runs: seq<Api>, a: Api)
    requires RunsTwice(runs, a)
    ensures !NoRepeats(runs)
  {
  }

  /** Every registration comes with a run of its own body. */
  ghost predicate Logged(s: Registry) {
    multiset(s.apis) <= multiset(s.runs)
  }

  lemma {:induction false} InitLogs(g: Graph, s: Registry, apis: seq<Api>, bound: nat)
    requires WellFormed(g) && Within(g, s) && Logged(s)
    requires forall a :: a in apis ==> a in g.universe && g.height(a) < bound
    ensures Logged(InitAll(g, s, apis, bound))
    decreases Missing(g, s), bound, |apis|
  {
    if apis != [] {
      var a := apis[0];
      var s1 := Init(g, s, a);
      if a !in s.apis {
        InitLogs(g, s, g.depends(a), g.height(a));
        var s2 := Register(InitAll(g, s, g.depends(a), g.height(a)), a);
        MissingShrinks(g, s, s2, a);
        InitLogs(g, s2, g.imports(a), g.top);
      }
      MissingShrinks(g, s, s1, a);
      InitLogs(g, s1, apis[1..], bound);
    }
  }

  /** Of an API on a mixed cycle, imported first, the body runs twice. */
  lemma MixedCycleRunsTwice(g: Graph, a: Api)
    requires WellFormed(g) && a in g.universe && MixedCycle(g, a)
    ensures RunsTwice(Init(g, Registry([], []), a).runs, a)
  {
    var s := Registry([], []);
    var s1 := InitAll(g, s, g.depends(a), g.height(a));
    InitAllOrdered(g, s, g.depends(a), g.height(a));
    InitAllClosed(g, s, g.depends(a), g.height(a), {});
    var d :| d in g.depends(a) && Leads(g, d, a);
    var p :| Walk(g, p) && p[0] == d && p[|p| - 1] == a;
    ClosedLeads(g, s1.apis, p);
    InitLogs(g, s, g.depends(a), g.height(a));
    assert a in multiset(s1.apis) && a in multiset(s1.runs);
    var i :| 0 <= i < |s1.runs| && s1.runs[i] == a;
    var s2 := Register(s1, a);
    var runs := InitAll(g, s2, g.imports(a), g.top).runs;
    assert s2.runs <= runs && runs[i] == s2.runs[i] && runs[|s1.runs|] == s2.runs[|s1.runs|];
  }

  /** Only what is registered has run. */
  ghost predicate OnlyLogged(s: Registry) {
    forall x :: x in s.runs ==> x in s.apis
  }

  /** How often the body of `a` ran. */
  function Times(runs: seq<Api>, a: Api): nat {
    multiset(runs)[a]
  }

  /** Importing logs registered APIs only, and never one that was registered before. */
  lemma {:induction false} InitKeepsLog(g: Graph, s: Registry, apis: seq<Api>, bound: nat, x: Api)
    requires WellFormed(g) && Within(g, s) && OnlyLogged(s)
    requires forall a :: a in apis ==> a in g.universe && g.height(a) < bound
    ensures OnlyLogged(InitAll(g, s, apis, bound))
    ensures x in s.apis ==> Times(InitAll(g, s, apis, bound).runs, x) == Times(s.runs, x)
    decreases Missing(g, s), bound, |apis|
  {
    if apis != [] {
      var a := apis[0];
      var s1 := Init(g, s, a);
      if a !in s.apis {
        InitKeepsLog(g, s, g.depends(a), g.height(a), x);
        var s0 := InitAll(g, s, g.depends(a), g.height(a));
        var s2 := Register(s0, a);
        RegisterKeepsLog(s, s0, a, x);
        MissingShrinks(g, s, s2, a);
        InitKeepsLog(g, s2, g.imports(a), g.top, x);
      }
      MissingShrinks(g, s, s1, a);
      assert x in s.apis ==> x in s1.apis;
      InitKeepsLog(g, s1, apis[1..], bound, x);
    }
  }

  lemma RegisterKeepsLog(s: Registry, s0: Registry, a: Api, x: Api)
    requires Grows(s, s0) && OnlyLogged(s0) && a !in s.apis
    ensures OnlyLogged(Register(s0, a))
    ensures x in s.apis ==> x in Register(s0, a).apis
    ensures x in s.apis ==> Times(Register(s0, a).runs, x) == Times(s0.runs, x)
  {
    if x in s.apis {
      RegisteredStays(s, s0, x);
    }
  }

  lemma TwiceCounts(runs: seq<Api>, a: Api)
    requires RunsTwice(runs, a)
    ensures Times(runs, a) >= 2
  {
    var i, j :| 0 <= i < j < |runs| && runs[i] == a && runs[j] == a;
    assert runs == runs[..j] + runs[j..];
    assert a in runs[..j] && a in runs[j..];
  }

  /** Imported first, an API runs its body more than once exactly if it is on a mixed cycle. */
  lemma RunsTwiceIffMixedCycle(g: Graph, a: Api)
    requires WellFormed(g) && a in g.universe
    ensures RunsTwice(Init(g, Registry([], []), a).runs, a) <==> MixedCycle(g, a)
  {
    if MixedCycle(g, a) {
      MixedCycleRunsTwice(g, a);
    } else {
      var s := Registry([], []);
      var s1 := InitAll(g, s, g.depends(a), g.height(a));
      InitAllAccounted(g, s, g.depends(a), g.height(a));
      assert a !in s1.apis;
      InitKeepsLog(g, s, g.depends(a), g.height(a), a);
      var s2 := Register(s1, a);
      InitKeepsLog(g, s2, g.imports(a), g.top, a);
      var runs := InitAll(g, s2, g.imports(a), g.top).runs;
      assert Times(runs, a) == 1;
      if RunsTwice(runs, a) {
        TwiceCounts(runs, a);
      }
    }
  }

  /** No body runs twice, whatever is imported first, exactly when no mixed cycle exists. */
  lemma RunsOnceIffNoMixedCycle(g: Graph)
    requires WellFormed(g)
    ensures (forall a :: a in g.universe ==> NoRepeats(Init(g, Registry([], []), a).runs))
            <==> forall a :: a in g.universe ==> !MixedCycle(g, a)
    ensures forall a :: a in g.universe && MixedCycle(g, a) ==> RunsTwice(Init(g, Registry([], []), a).runs, a)
  {
    forall a | a in g.universe && MixedCycle(g, a)
      ensures RunsTwice(Init(g, Registry([], []), a).runs, a) && !NoRepeats(Init(g, Registry([], []), a).runs)
    {
      MixedCycleRunsTwice(g, a);
      RepeatedBody(Init(g, Registry([], []), a).runs, a);
    }
    if forall a :: a in g.universe ==> !MixedCycle(g, a) {
      forall a | a in g.universe
        ensures NoRepeats(Init(g, Registry([], []), a).runs)
      {
        RunsInOrder(g, a);
      }
    }
  }

  /** Without mixed cycles each registered API ran its body once, when it was registered. */
  lemma RunsInOrder(g: Graph, a: Api)
    requires WellFormed(g) && a in g.universe && forall x :: x in g.universe ==> !MixedCycle(g, x)
    ensures var s := Init(g, Registry([], []), a); s.runs == s.apis && NoRepeats(s.runs)
  {
    InitRunsOnce(g, Registry([], []), a);
    InitOrdered(g, Registry([], []), a);
  }

  const STRING: Api := 0
  const STRINGBUFFER: Api := 1
  const LOGGER: Api := 2
  const MATH: Api := 3

  /** The four APIs at the bottom of the library: `string` imports `math`, which depends on `logger`. */
  ghost function Shipped(): Graph {
    Graph({STRING, STRINGBUFFER, LOGGER, MATH},
          a => if a == LOGGER then [STRING] else if a == MATH then [LOGGER] else [],
          a => if a == STRING then [MATH, STRINGBUFFER] else if a == STRINGBUFFER then [STRING] else [],
          a => if a == MATH then 2 else if a == LOGGER then 1 else 0,
          3)
  }

  lemma ShippedWellFormed()
    ensures WellFormed(Shipped()) && MixedCycle(Shipped(), MATH) && MixedCycle(Shipped(), LOGGER)
  {
    var g := Shipped();
    CycleOfThree(g, MATH, LOGGER, STRING);
    CycleOfThree(g, LOGGER, STRING, MATH);
  }

  lemma CycleOfThree(g: Graph, a: Api, b: Api, c: Api)
    requires b in g.depends(a) && Edge(g, b, c) && Edge(g, c, a)
    ensures MixedCycle(g, a)
  {
    LeadsItself(g, a);
    LeadsOn(g, c, a, a);
    LeadsOn(g, b, c, a);
  }

  /** As shipped, importing `math` first runs its body twice; so does `logger`. */
  lemma ShippedRunsTwice(g: Graph, a: Api)
    requires g == Shipped() && (a == MATH || a == LOGGER)
    ensures WellFormed(g) && a in g.universe
    ensures RunsTwice(Init(g, Registry([], []), a).runs, a)
  {
    ShippedWellFormed();
    MixedCycleRunsTwice(g, a);
  }

  // ---------------------------------------------------------------- the registry as a program

  class Toolkit {
    var apis: seq<Api>
    var runs: seq<Api>
    var deinits: seq<Api>

    ghost function Abs(): Registry
      reads this
    {
      Registry(apis, runs)
    }

    constructor ()
      ensures Abs() == Registry([], []) && deinits == []
    {
      apis, runs, deinits := [], [], [];
    }

    method CheckImported(a: Api) returns (known: bool)
      ensures known == (a in apis)
    {
      for i := 0 to |apis|
        invariant a !in apis[..i]
      {
        if apis[i] == a {
          return true;
        }
      }
      return false;
    }

    method ImportRegister(a: Api)
      modifies `apis
      ensures apis == if a in old(apis) then old(apis) else old(apis) + [a]
    {
      var known := CheckImported(a);
      if !known {
        apis := apis + [a];
      }
    }

    /** Initialises one API: its dependencies, its registration and body, then its imports. */
    method Import(ghost g: Graph, depends: Api -> seq<Api>, imports: Api -> seq<Api>, a: Api)
      requires WellFormed(g) && depends == g.depends && imports == g.imports
      requires Within(g, Abs()) && a in g.universe
      modifies `apis, `runs
      ensures Abs() == Init(g, old(Abs()), a)
      decreases Missing(g, Abs()), g.height(a) + 1, 0
    {
      ghost var s0 := Abs();
      var known := CheckImported(a);
      if known {
        return;
      }
      ImportEach(g, depends, imports, depends(a), g.height(a));
      ImportRegister(a);
      runs := runs + [a];
      MissingShrinks(g, s0, Abs(), a);
      ImportEach(g, depends, imports, imports(a), g.top);
    }

    method ImportEach(ghost g: Graph, depends: Api -> seq<Api>, imports: Api -> seq<Api>, list: seq<Api>,
                      ghost bound: nat)
      requires WellFormed(g) && depends == g.depends && imports == g.imports
      requires Within(g, Abs()) && forall a :: a in list ==> a in g.universe && g.height(a) < bound
      modifies `apis, `runs
      ensures Abs() == InitAll(g, old(Abs()), list, bound)
      decreases Missing(g, Abs()), bound, |list|
    {
      ghost var s0 := Abs();
      for i := 0 to |list|
        invariant Within(g, Abs()) && Grows(s0, Abs())
        invariant InitAll(g, s0, list, bound) == InitAll(g, Abs(), list[i..], bound)
      {
        ghost var s := Abs();
        MissingShrinks(g, s0, s, list[i]);
        assert list[i..][0] == list[i] && list[i..][1..] == list[i + 1..];
        Import(g, depends, imports, list[i]);
      }
    }

    /** Deinitialises every registered API, newest first, and empties the registry. */
    method Deinit()
      modifies `apis, `deinits
      ensures apis == [] && deinits == old(deinits) + Backwards(old(apis))
    {
      var i := |apis|;
      assert apis[..i] == apis;
      while i > 0
        invariant 0 <= i <= |apis| && apis == old(apis)
        invariant old(deinits) + Backwards(apis) == deinits + Backwards(apis[..i])
      {
        assert apis[..i][..i - 1] == apis[..i - 1];
        deinits := deinits + [apis[i - 1]];
        i := i - 1;
      }
      apis := [];
    }
  }

  function Backwards(apis: seq<Api>): (r: seq<Api>)
    ensures |r| == |apis|
  {
    if apis == [] then [] else [apis[|apis| - 1]] + Backwards(apis[..|apis| - 1])
  }

  lemma {:induction false} BackwardsAt(apis: seq<Api>, i: nat)
    requires i < |apis|
    ensures Backwards(apis)[i] == apis[|apis| - 1 - i]
    decreases |apis|
  {
    if i > 0 {
      BackwardsAt(apis[..|apis| - 1], i - 1);
    }
  }

  /** In an orderly registry every API is torn down before what it depends on. */
  lemma TornDownBeforeDepends(g: Graph, apis: seq<Api>, i: nat, d: Api) returns (j: nat)
    requires Ordered(g, apis) && i < |apis| && d in g.depends(Backwards(apis)[i])
    ensures i < j < |apis| && Backwards(apis)[j] == d
  {
    var k := |apis| - 1 - i;
    BackwardsAt(apis, i);
    assert DependsBefore(g, apis, k);
    var m :| 0 <= m < k && apis[..k][m] == d;
    j := |apis| - 1 - m;
    BackwardsAt(apis, j);
  }
}
