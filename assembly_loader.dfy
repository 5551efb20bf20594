/**
 * AssemblyLoader: loads the root assembly and, depth first, every assembly it references
 * directly or indirectly, each name once, raising an event before and after every load and
 * one when the traversal is over.
 */
module AssemblyLoading {
  import opened Wrappers
  import opened Linq
  import opened Ordering

  /** An AssemblyName, identified by its string form (the names are compared by ToString()). */
  type AssemblyName = string

  /** A loaded assembly: its name and the names GetReferencedAssemblies reports. */
  datatype Assembly = Assembly(name: AssemblyName, references: seq<AssemblyName>)

  /** The three events, in the order they are raised. */
  datatype Event =
    | AssemblyLoading(name: AssemblyName)
    | AssemblyLoaded(assembly: Assembly)
    | AllAssembliesLoaded(assemblies: seq<Assembly>)

  /** Assembly.Load, a given function of the name. */
  type Loader = AssemblyName -> Assembly

  function Elements(ns: seq<AssemblyName>): (r: set<AssemblyName>)
    ensures forall n :: n in r <==> n in ns
  {
    set n | n in ns
  }

  /** The events raised while loading ns in order: AssemblyLoading then AssemblyLoaded for each. */
  function LoadEvents(load: Loader, ns: seq<AssemblyName>): (r: seq<Event>)
    ensures |r| == 2 * |ns|
  {
    if ns == [] then [] else [AssemblyLoading(ns[0]), AssemblyLoaded(load(ns[0]))] + LoadEvents(load, ns[1..])
  }

  /** The events of the i-th name are AssemblyLoading and AssemblyLoaded, at positions 2i and 2i + 1. */
  lemma {:induction false} LoadEventsAt(load: Loader, ns: seq<AssemblyName>, i: nat)
    requires i < |ns|
    ensures LoadEvents(load, ns)[2 * i] == AssemblyLoading(ns[i])
    ensures LoadEvents(load, ns)[2 * i + 1] == AssemblyLoaded(load(ns[i]))
  {
    if i > 0 {
      LoadEventsAt(load, ns[1..], i - 1);
      assert ns[1..][i - 1] == ns[i];
    }
  }

  lemma {:induction false} LoadEventsConcat(load: Loader, a: seq<AssemblyName>, b: seq<AssemblyName>)
    ensures LoadEvents(load, a + b) == LoadEvents(load, a) + LoadEvents(load, b)
  {
    if a != [] {
      assert (a + b)[0] == a[0];
      assert (a + b)[1..] == a[1..] + b;
      LoadEventsConcat(load, a[1..], b);
      var head := [AssemblyLoading(a[0]), AssemblyLoaded(load(a[0]))];
      assert LoadEvents(load, a + b) == head + LoadEvents(load, a[1..] + b);
      assert LoadEvents(load, a) == head + LoadEvents(load, a[1..]);
      ConcatAssociates(head, LoadEvents(load, a[1..]), LoadEvents(load, b));
    } else {
      assert a + b == b;
    }
  }

  /** Every name after the first is referenced by some name loaded before it. */
  predicate Parented(load: Loader, ns: seq<AssemblyName>)
  {
    forall i :: 0 < i < |ns| ==> HasParent(load, ns, i)
  }

  /** Some name before position i references the name at i. */
  predicate HasParent(load: Loader, ns: seq<AssemblyName>, i: nat)
    requires i < |ns|
  {
    exists j :: 0 <= j < i && ns[i] in load(ns[j]).references
  }

  /** Every reference of the names from position lo on is among ns. */
  predicate CoveredFrom(load: Loader, lo: nat, ns: seq<AssemblyName>)
  {
    forall j, m :: lo <= j < |ns| && m in load(ns[j]).references ==> m in ns
  }

  /** The names are closed under references. */
  predicate ClosedUnder(load: Loader, s: set<AssemblyName>)
  {
    forall n, m :: n in s && m in load(n).references ==> m in s
  }

  /** _hasLoaded(x) as a predicate on names. */
  function NotLoaded(loaded: seq<AssemblyName>): (f: AssemblyName -> bool)
    ensures forall x :: f(x) == (x !in loaded)
  {
    x => x !in loaded
  }

  /**
   * newReferenced: the references of the assembly not yet loaded, in reference order or, when
   * a key is given, ordered by it.
   */
  function NewReferenced(asm: Assembly, loaded: seq<AssemblyName>, logic: Option<AssemblyName -> int>): (r: seq<AssemblyName>)
    ensures forall m :: m in r <==> m in asm.references && m !in loaded
    ensures logic.Some? ==> SortedBy(r, logic.value)
  {
    var unloaded := Filter(asm.references, NotLoaded(loaded));
    if logic.None? then unloaded
    else
      var r := OrderBy(unloaded, logic.value);
      assert forall m :: m in r <==> m in multiset(r);
      assert forall m :: m in unloaded <==> m in multiset(unloaded);
      r
  }

  /**
   * A parented sequence starting at the root lies inside every set that holds the root and is
   * closed under references: only reachable assemblies are loaded.
   */
  lemma {:induction false} ParentedIsReachable(load: Loader, root: AssemblyName, ns: seq<AssemblyName>, s: set<AssemblyName>)
    requires ns != [] && ns[0] == root && Parented(load, ns)
    requires root in s && ClosedUnder(load, s)
    ensures forall n :: n in ns ==> n in s
  {
    FirstNamesReachable(load, root, ns, s, |ns|);
  }

  lemma {:induction false} FirstNamesReachable(load: Loader, root: AssemblyName, ns: seq<AssemblyName>, s: set<AssemblyName>,
                                               count: nat)
    requires ns != [] && ns[0] == root && Parented(load, ns)
    requires root in s && ClosedUnder(load, s)
    requires count <= |ns|
    ensures forall k :: 0 <= k < count ==> ns[k] in s
  {
    if count > 1 {
      FirstNamesReachable(load, root, ns, s, count - 1);
      assert HasParent(load, ns, count - 1);
      var j :| 0 <= j < count - 1 && ns[count - 1] in load(ns[j]).references;
      assert ns[j] in s;
    }
  }

  /** Appending to a sequence keeps the coverage of the earlier names. */
  lemma CoveredGrows(load: Loader, lo: nat, ns: seq<AssemblyName>, ms: seq<AssemblyName>)
    requires CoveredFrom(load, lo, ns) && ns <= ms && CoveredFrom(load, |ns|, ms)
    ensures CoveredFrom(load, lo, ms)
  {
    forall j, m | lo <= j < |ms| && m in load(ms[j]).references ensures m in ms {
      if j < |ns| {
        assert ms[j] == ns[j];
        assert m in load(ns[j]).references;
        assert m in ns;
        var k :| 0 <= k < |ns| && ns[k] == m;
        assert ms[k] == m;
      }
    }
  }

  /** The events of a traversal extended by a nested one are the events of the whole extension. */
  lemma EventsGrow(load: Loader, start: int, ns: seq<AssemblyName>, ms: seq<AssemblyName>)
    requires 0 <= start <= |ns| && ns <= ms
    ensures LoadEvents(load, ms[start..]) == LoadEvents(load, ns[start..]) + LoadEvents(load, ms[|ns|..])
  {
    assert ms[start..] == ns[start..] + ms[|ns|..];
    LoadEventsConcat(load, ns[start..], ms[|ns|..]);
  }

  /** One nested visit extends the events of the enclosing visit by the events of the names it loaded. */
  lemma EventsStep(load: Loader, start: nat, before: seq<AssemblyName>, after: seq<AssemblyName>,
                   initial: seq<Event>, middle: seq<Event>, final: seq<Event>)
    requires start <= |before| && before <= after
    requires middle == initial + LoadEvents(load, before[start..])
    requires final == middle + LoadEvents(load, after[|before|..])
    ensures final == initial + LoadEvents(load, after[start..])
  {
    EventsGrow(load, start, before, after);
    ConcatAssociates(initial, LoadEvents(load, before[start..]), LoadEvents(load, after[|before|..]));
  }

  lemma ConcatAssociates<T>(a: seq<T>, b: seq<T>, c: seq<T>)
    ensures a + (b + c) == (a + b) + c
  {
  }

  /** The names visited so far stay loaded when a further visit extends the sequence. */
  lemma KeptThrough(xs: seq<AssemblyName>, i: nat, before: seq<AssemblyName>, after: seq<AssemblyName>)
    requires i < |xs| && before <= after && xs[i] in after
    requires forall k :: 0 <= k < i ==> xs[k] in before
    ensures forall k :: 0 <= k < i + 1 ==> xs[k] in after
  {
    ElementsGrow(before, after);
  }

  /** Appending a name that is new and referenced by a loaded one keeps the sequence a traversal. */
  lemma AppendKeepsTraversal(load: Loader, ns: seq<AssemblyName>, x: AssemblyName)
    requires NoDuplicates(ns) && Parented(load, ns) && x !in ns
    requires ns != [] ==> exists j :: 0 <= j < |ns| && x in load(ns[j]).references
    ensures NoDuplicates(ns + [x]) && Parented(load, ns + [x])
  {
    var ms := ns + [x];
    AppendKeepsParented(load, ns, x);
    forall i, j | 0 <= i < j < |ms| ensures ms[i] != ms[j] {
      if j == |ns| {
        assert ms[i] == ns[i] && ms[j] == x;
      } else {
        assert ms[i] == ns[i] && ms[j] == ns[j];
      }
    }
  }

  /** Appending a name referenced by one already in the sequence keeps every later name parented. */
  lemma AppendKeepsParented(load: Loader, ns: seq<AssemblyName>, x: AssemblyName)
    requires Parented(load, ns)
    requires ns != [] ==> exists j :: 0 <= j < |ns| && x in load(ns[j]).references
    ensures Parented(load, ns + [x])
  {
    var ms := ns + [x];
    forall i | 0 < i < |ms| ensures HasParent(load, ms, i) {
      if i < |ns| {
        assert HasParent(load, ns, i);
        var j :| 0 <= j < i && ns[i] in load(ns[j]).references;
        assert ms[i] == ns[i] && ms[j] == ns[j];
        assert 0 <= j < i && ms[i] in load(ms[j]).references;
      } else {
        assert i == |ns| && ms[i] == x && ns != [];
        var j :| 0 <= j < |ns| && x in load(ns[j]).references;
        assert ms[j] == ns[j];
        assert 0 <= j < i && ms[i] in load(ms[j]).references;
      }
    }
  }


  /**
   * After loading current and visiting its new references, every reference of the names loaded
   * from current on is loaded, and the events are those of all these names.
   */
  lemma VisitOutcome(load: Loader, before: seq<AssemblyName>, current: AssemblyName, kids: seq<AssemblyName>,
                     after: seq<AssemblyName>, initial: seq<Event>, middle: seq<Event>, final: seq<Event>)
    requires forall m :: m in load(current).references ==> m in before + [current] || m in kids
    requires before + [current] <= after
    requires forall k :: 0 <= k < |kids| ==> kids[k] in after
    requires CoveredFrom(load, |before| + 1, after)
    requires middle == initial + LoadEvents(load, [current])
    requires final == middle + LoadEvents(load, after[|before| + 1..])
    ensures CoveredFrom(load, |before|, after)
    ensures final == initial + LoadEvents(load, after[|before|..])
  {
    var start := |before|;
    ElementsGrow(before + [current], after);
    assert after[start] == current;
    forall m | m in load(after[start]).references ensures m in after {
      if m !in before + [current] {
        var k :| 0 <= k < |kids| && kids[k] == m;
      }
    }
    assert (before + [current])[start..] == [current];
    EventsStep(load, start, before + [current], after, initial, middle, final);
  }

  /** Loading a name of the universe removes exactly that name from the unvisited ones. */
  lemma UnvisitedShrinks(universe: set<AssemblyName>, before: seq<AssemblyName>, current: AssemblyName)
    requires current in universe && current !in before
    ensures universe - Elements(before + [current]) + {current} == universe - Elements(before)
  {
    assert Elements(before + [current]) == Elements(before) + {current};
  }

  /** A sequence extending another holds all of its names. */
  lemma ElementsGrow(ns: seq<AssemblyName>, ms: seq<AssemblyName>)
    requires ns <= ms
    ensures Elements(ns) <= Elements(ms)
  {
    forall x | x in ns ensures x in ms {
      var k :| 0 <= k < |ns| && ns[k] == x;
      assert ms[k] == x;
    }
  }

  // ---- the depth-first order, as a reference definition ----

  /**
   * The names loaded by a visit of name after the names in visited: nothing new when name is
   * loaded already, and otherwise name followed by the visits of its references that were not
   * loaded with it, in NewReferenced order. The universe, a finite set holding every name and
   * closed under references, only bounds the recursion.
   */
  function DfsFrom(load: Loader, logic: Option<AssemblyName -> int>, universe: set<AssemblyName>,
                   visited: seq<AssemblyName>, name: AssemblyName): (r: seq<AssemblyName>)
    requires ClosedUnder(load, universe) && Elements(visited) <= universe && name in universe
    decreases universe - Elements(visited), 1, 0
    ensures visited <= r && Elements(r) <= universe
  {
    if name in visited then visited
    else
      var v := visited + [name];
      assert Elements(v) == Elements(visited) + {name};
      DfsAll(load, logic, universe, v, NewReferenced(load(name), v, logic))
  }

  /** The names loaded by visiting each of names in turn after the names in visited. */
  function DfsAll(load: Loader, logic: Option<AssemblyName -> int>, universe: set<AssemblyName>,
                  visited: seq<AssemblyName>, names: seq<AssemblyName>): (r: seq<AssemblyName>)
    requires ClosedUnder(load, universe) && Elements(visited) <= universe
    requires forall k :: 0 <= k < |names| ==> names[k] in universe
    decreases universe - Elements(visited), 2, |names|
    ensures visited <= r && Elements(r) <= universe
  {
    if names == [] then visited
    else
      var first := DfsFrom(load, logic, universe, visited, names[0]);
      ElementsGrow(visited, first);
      DfsAll(load, logic, universe, first, names[1..])
  }

  /** Visiting names from position i on is visiting names[i], then the names after it. */
  lemma DfsAllStep(load: Loader, logic: Option<AssemblyName -> int>, universe: set<AssemblyName>,
                   before: seq<AssemblyName>, after: seq<AssemblyName>, names: seq<AssemblyName>, i: nat)
    requires ClosedUnder(load, universe) && Elements(before) <= universe
    requires forall k :: 0 <= k < |names| ==> names[k] in universe
    requires i < |names| && after == DfsFrom(load, logic, universe, before, names[i])
    ensures Elements(after) <= universe
    ensures DfsAll(load, logic, universe, before, names[i..]) == DfsAll(load, logic, universe, after, names[i + 1..])
  {
    assert names[i..][0] == names[i] && names[i..][1..] == names[i + 1..];
  }

  /** A root R referencing A and then B, where A references C. */
  function ExampleLoad(n: AssemblyName): Assembly
  {
    if n == "R" then Assembly("R", ["A", "B"])
    else if n == "A" then Assembly("A", ["C"])
    else Assembly(n, [])
  }

  const ExampleUniverse: set<AssemblyName> := {"R", "A", "B", "C"}

  lemma ExampleClosed()
    ensures ClosedUnder(ExampleLoad, ExampleUniverse)
  {
    forall n, m | n in ExampleUniverse && m in ExampleLoad(n).references ensures m in ExampleUniverse {
      assert n == "R" || n == "A" || n == "B" || n == "C";
    }
  }

  /** C has no references: its visit after R and A loads just C. */
  lemma ExampleVisitsC()
    ensures ClosedUnder(ExampleLoad, ExampleUniverse)
    ensures DfsFrom(ExampleLoad, None, ExampleUniverse, ["R", "A"], "C") == ["R", "A", "C"]
  {
    ExampleClosed();
    assert "C" !in ["R", "A"];
    assert NewReferenced(ExampleLoad("C"), ["R", "A", "C"], None) == [];
  }

  /** A's visit after R loads A and then C. */
  lemma ExampleVisitsA()
    ensures ClosedUnder(ExampleLoad, ExampleUniverse)
    ensures DfsFrom(ExampleLoad, None, ExampleUniverse, ["R"], "A") == ["R", "A", "C"]
  {
    ExampleVisitsC();
    assert "A" !in ["R"];
    var kids := NewReferenced(ExampleLoad("A"), ["R", "A"], None);
    assert kids == ["C"] by {
      assert "C" !in ["R", "A"];
      assert Filter(["C"], NotLoaded(["R", "A"])) == ["C"];
    }
    assert ["R"] + ["A"] == ["R", "A"];
    assert DfsFrom(ExampleLoad, None, ExampleUniverse, ["R"], "A") ==
           DfsAll(ExampleLoad, None, ExampleUniverse, ["R", "A"], kids);
    assert kids[0] == "C" && kids[1..] == [];
    assert DfsAll(ExampleLoad, None, ExampleUniverse, ["R", "A"], kids) ==
           DfsAll(ExampleLoad, None, ExampleUniverse, ["R", "A", "C"], []);
  }

  /** B has no references: its visit after R, A and C loads just B. */
  lemma ExampleVisitsB()
    ensures ClosedUnder(ExampleLoad, ExampleUniverse)
    ensures DfsFrom(ExampleLoad, None, ExampleUniverse, ["R", "A", "C"], "B") == ["R", "A", "C", "B"]
  {
    ExampleClosed();
    assert "B" !in ["R", "A", "C"];
    assert NewReferenced(ExampleLoad("B"), ["R", "A", "C", "B"], None) == [];
  }

  /**
   * Depth first in reference order: R, then A and all of A's dependencies, then B. A breadth
   * first walk would load B before C.
   */
  lemma ExampleIsDepthFirst()
    ensures ClosedUnder(ExampleLoad, ExampleUniverse)
    ensures DfsFrom(ExampleLoad, None, ExampleUniverse, [], "R") == ["R", "A", "C", "B"]
  {
    ExampleVisitsA();
    ExampleVisitsB();
    var kids := NewReferenced(ExampleLoad("R"), ["R"], None);
    assert kids == ["A", "B"] by {
      assert "A" !in ["R"] && "B" !in ["R"];
      assert Filter(["A", "B"], NotLoaded(["R"])) == ["A", "B"];
    }
    assert [] + ["R"] == ["R"];
    assert DfsFrom(ExampleLoad, None, ExampleUniverse, [], "R") ==
           DfsAll(ExampleLoad, None, ExampleUniverse, ["R"], kids);
    assert kids[0] == "A" && kids[1..] == ["B"] && kids[1..][0] == "B" && kids[1..][1..] == [];
    assert DfsAll(ExampleLoad, None, ExampleUniverse, ["R"], kids) ==
           DfsAll(ExampleLoad, None, ExampleUniverse, ["R", "A", "C"], ["B"]);
    assert DfsAll(ExampleLoad, None, ExampleUniverse, ["R", "A", "C"], ["B"]) ==
           DfsAll(ExampleLoad, None, ExampleUniverse, ["R", "A", "C", "B"], []);
  }

  class AssemblyLoader {
    /** Root, the assembly the dependencies are resolved from. */
    const root: Assembly
    /** Assembly.Load. */
    const load: Loader
    /** The names Assembly.Load can reach: a finite set holding the root, closed under references. */
    ghost const universe: set<AssemblyName>
    /** _loaded. */
    var loaded: seq<AssemblyName>
    /** _assemblies. */
    var assemblies: seq<Assembly>
    /** Every event raised so far, in order; raising an event with no handler is not observable. */
    var events: seq<Event>

    ghost predicate UniverseClosed()
    {
      root.name in universe && ClosedUnder(load, universe)
    }

    /**
     * The two lists are index-aligned (the assembly at i is the one loaded for the name at i),
     * no name occurs twice, and each name after the first is a reference of an earlier one.
     */
    ghost predicate Valid()
      reads this
    {
      && UniverseClosed()
      && (forall n :: n in loaded ==> n in universe)
      && NoDuplicates(loaded)
      && |assemblies| == |loaded|
      && (forall i :: 0 <= i < |loaded| ==> assemblies[i] == load(loaded[i]))
      && Parented(load, loaded)
    }

    /** AssemblyLoader(root). */
    constructor (root: Assembly, load: Loader, ghost universe: set<AssemblyName>)
      requires root.name in universe && ClosedUnder(load, universe)
      ensures Valid()
      ensures this.root == root && this.load == load && this.universe == universe
      ensures loaded == [] && assemblies == [] && events == []
    {
      this.root := root;
      this.load := load;
      this.universe := universe;
      loaded := [];
      assemblies := [];
      events := [];
    }

    /** _hasLoaded(name): some loaded name has the same string form. */
    function HasLoaded(name: AssemblyName): (b: bool)
      reads this`loaded
      ensures b <==> name in loaded
    {
      exists i :: 0 <= i < |loaded| && loaded[i] == name
    }

    /**
     * LoadAllDependencies(logic), and with logic None the parameterless overload: both lists are
     * reset, the root and its dependencies are loaded depth first, and AllAssembliesLoaded
     * reports the loaded assemblies. The loaded names are exactly the names reachable from the
     * root: the root comes first, every reference of a loaded name is loaded, and each name
     * after the root is a reference of one loaded before it (see ParentedIsReachable).
     */
    method LoadAllDependencies(logic: Option<AssemblyName -> int>)
      requires Valid()
      modifies this`loaded, this`assemblies, this`events
      ensures Valid()
      ensures |loaded| > 0 && loaded[0] == root.name
      ensures ClosedUnder(load, Elements(loaded))
      ensures loaded == DfsFrom(load, logic, universe, [], root.name)
      ensures events == old(events) + LoadEvents(load, loaded) + [AllAssembliesLoaded(assemblies)]
    {
      loaded := [];
      assemblies := [];
      ghost var before := events;
      Visit(root.name, logic);
      assert loaded[0..] == loaded;
      forall n, m | n in Elements(loaded) && m in load(n).references ensures m in Elements(loaded) {
        var j :| 0 <= j < |loaded| && loaded[j] == n;
      }
      events := events + [AllAssembliesLoaded(assemblies)];
    }

    /**
     * The first half of _LoadAssembliesRecursively for a name not loaded yet: AssemblyLoading,
     * Assembly.Load, both lists appended, AssemblyLoaded.
     */
    method LoadName(current: AssemblyName) returns (asm: Assembly)
      requires Valid() && current in universe && current !in loaded
      requires loaded != [] ==> exists j :: 0 <= j < |loaded| && current in load(loaded[j]).references
      modifies this`loaded, this`assemblies, this`events
      ensures Valid()
      ensures asm == load(current)
      ensures loaded == old(loaded) + [current] && assemblies == old(assemblies) + [asm]
      ensures events == old(events) + LoadEvents(load, [current])
    {
      AppendKeepsTraversal(load, loaded, current);
      events := events + [AssemblyLoading(current)];
      asm := load(current);
      loaded := loaded + [current];
      assemblies := assemblies + [asm];
      events := events + [AssemblyLoaded(asm)];
      assert LoadEvents(load, [current]) == [AssemblyLoading(current), AssemblyLoaded(asm)] + LoadEvents(load, []);
    }

    /**
     * _LoadAssembliesRecursively(current, logic): nothing when the name is loaded already, and
     * otherwise LoadAndVisit.
     */
    method Visit(current: AssemblyName, logic: Option<AssemblyName -> int>)
      requires Valid() && current in universe
      requires loaded != [] ==> exists j :: 0 <= j < |loaded| && current in load(loaded[j]).references
      modifies this`loaded, this`assemblies, this`events
      decreases universe - Elements(loaded), 3
      ensures Valid()
      ensures loaded == DfsFrom(load, logic, universe, old(loaded), current)
      ensures old(loaded) <= loaded && current in loaded
      ensures current in old(loaded) ==> loaded == old(loaded) && events == old(events)
      ensures current !in old(loaded) ==> loaded[|old(loaded)|] == current
      ensures CoveredFrom(load, |old(loaded)|, loaded)
      ensures events == old(events) + LoadEvents(load, loaded[|old(loaded)|..])
      ensures current !in old(loaded) ==>
        var kids := NewReferenced(load(current), old(loaded) + [current], logic);
        (|loaded| > |old(loaded)| + 1 <==> kids != []) &&
        (kids != [] ==> loaded[|old(loaded)| + 1] == kids[0])
    {
      if HasLoaded(current) {
        assert loaded[|loaded|..] == [];
        return;
      }
      LoadAndVisit(current, logic);
    }

    /**
     * The rest of _LoadAssembliesRecursively for a name not loaded yet: LoadName, then a visit
     * of each reference that was not loaded when the assembly was, in NewReferenced order.
     * Afterwards every reference of every name this call loaded is loaded, and the first name
     * loaded after current, if any, is the first of its new references.
     */
    method LoadAndVisit(current: AssemblyName, logic: Option<AssemblyName -> int>)
      requires Valid() && current in universe && current !in loaded
      requires loaded != [] ==> exists j :: 0 <= j < |loaded| && current in load(loaded[j]).references
      modifies this`loaded, this`assemblies, this`events
      decreases universe - Elements(loaded), 2
      ensures Valid()
      ensures loaded == DfsFrom(load, logic, universe, old(loaded), current)
      ensures old(loaded) + [current] <= loaded
      ensures CoveredFrom(load, |old(loaded)|, loaded)
      ensures events == old(events) + LoadEvents(load, loaded[|old(loaded)|..])
      ensures var kids := NewReferenced(load(current), old(loaded) + [current], logic);
        (|loaded| > |old(loaded)| + 1 <==> kids != []) &&
        (kids != [] ==> loaded[|old(loaded)| + 1] == kids[0])
    {
      ghost var start := |loaded|;
      var asm := LoadName(current);
      var newReferenced := NewReferenced(asm, loaded, logic);
      UnvisitedShrinks(universe, old(loaded), current);
      ghost var eventsMiddle := events;
      VisitReferences(current, newReferenced, logic);
      VisitOutcome(load, old(loaded), current, newReferenced, loaded, old(events), eventsMiddle, events);
    }

    /**
     * The foreach over newReferenced: a visit of each name in order, each a reference of the
     * name just loaded. The names loaded are those of the depth-first visits of the names in
     * turn; afterwards every one of them is loaded, every reference of the names loaded
     * meanwhile is loaded, and the first name loaded, if any, is the first of them.
     */
    method VisitReferences(current: AssemblyName, newReferenced: seq<AssemblyName>, logic: Option<AssemblyName -> int>)
      requires Valid() && loaded != [] && loaded[|loaded| - 1] == current
      requires forall k :: 0 <= k < |newReferenced| ==> newReferenced[k] in load(current).references
      requires newReferenced != [] ==> newReferenced[0] !in loaded
      modifies this`loaded, this`assemblies, this`events
      decreases universe - Elements(loaded) + {current}, 1
      ensures Valid()
      ensures loaded == DfsAll(load, logic, universe, old(loaded), newReferenced)
      ensures old(loaded) <= loaded
      ensures forall k :: 0 <= k < |newReferenced| ==> newReferenced[k] in loaded
      ensures CoveredFrom(load, |old(loaded)|, loaded)
      ensures events == old(events) + LoadEvents(load, loaded[|old(loaded)|..])
      ensures |loaded| > |old(loaded)| <==> newReferenced != []
      ensures newReferenced != [] ==> loaded[|old(loaded)|] == newReferenced[0]
    {
      ghost var outer := universe - Elements(loaded) + {current};
      VisitedNone(current, newReferenced, logic);
      var i := 0;
      while i < |newReferenced|
        invariant VisitedFirst(current, newReferenced, logic, i, old(loaded), old(events))
        invariant universe - Elements(loaded) < outer
      {
        VisitNext(current, newReferenced, logic, i, old(loaded), old(events));
        i := i + 1;
      }
      VisitedAll(current, newReferenced, logic, old(loaded), old(events));
    }

    /** Before the foreach nothing is visited. */
    lemma VisitedNone(current: AssemblyName, newReferenced: seq<AssemblyName>, logic: Option<AssemblyName -> int>)
      requires Valid() && loaded != [] && loaded[|loaded| - 1] == current
      requires forall k :: 0 <= k < |newReferenced| ==> newReferenced[k] in load(current).references
      requires newReferenced != [] ==> newReferenced[0] !in loaded
      ensures VisitedFirst(current, newReferenced, logic, 0, loaded, events)
    {
      assert loaded[|loaded|..] == [] && newReferenced[0..] == newReferenced;
      assert current in universe;
    }

    /** After the foreach every name is visited: the postcondition of VisitReferences. */
    lemma VisitedAll(current: AssemblyName, newReferenced: seq<AssemblyName>, logic: Option<AssemblyName -> int>,
                     loaded0: seq<AssemblyName>, events0: seq<Event>)
      requires VisitedFirst(current, newReferenced, logic, |newReferenced|, loaded0, events0)
      ensures Valid()
      ensures Elements(loaded0) <= universe && loaded == DfsAll(load, logic, universe, loaded0, newReferenced)
      ensures loaded0 <= loaded
      ensures forall k :: 0 <= k < |newReferenced| ==> newReferenced[k] in loaded
      ensures CoveredFrom(load, |loaded0|, loaded)
      ensures events == events0 + LoadEvents(load, loaded[|loaded0|..])
      ensures |loaded| > |loaded0| <==> newReferenced != []
      ensures newReferenced != [] ==> loaded[|loaded0|] == newReferenced[0]
    {
      assert newReferenced[|newReferenced|..] == [];
    }

    /**
     * What holds after the first i names of newReferenced were visited, starting from the
     * names loaded0 and the events events0.
     */
    ghost predicate VisitedFirst(current: AssemblyName, newReferenced: seq<AssemblyName>, logic: Option<AssemblyName -> int>,
                                 i: nat, loaded0: seq<AssemblyName>, events0: seq<Event>)
      reads this
    {
      && i <= |newReferenced|
      && Valid()
      && loaded0 != [] && loaded0[|loaded0| - 1] == current && loaded0 <= loaded
      && (forall k :: 0 <= k < |newReferenced| ==> newReferenced[k] in load(current).references)
      && (forall k :: 0 <= k < |newReferenced| ==> newReferenced[k] in universe)
      && (newReferenced != [] ==> newReferenced[0] !in loaded0)
      && (forall k :: 0 <= k < i ==> newReferenced[k] in loaded)
      && CoveredFrom(load, |loaded0|, loaded)
      && events == events0 + LoadEvents(load, loaded[|loaded0|..])
      && (i > 0 ==> |loaded| > |loaded0| && loaded[|loaded0|] == newReferenced[0])
      && (i == 0 ==> loaded == loaded0)
      && Elements(loaded0) <= universe && Elements(loaded) <= universe
      && DfsAll(load, logic, universe, loaded0, newReferenced) == DfsAll(load, logic, universe, loaded, newReferenced[i..])
    }

    /** One pass of the foreach over newReferenced: the visit of its i-th name. */
    method VisitNext(current: AssemblyName, newReferenced: seq<AssemblyName>, logic: Option<AssemblyName -> int>,
                     i: nat, ghost loaded0: seq<AssemblyName>, ghost events0: seq<Event>)
      requires VisitedFirst(current, newReferenced, logic, i, loaded0, events0) && i < |newReferenced|
      modifies this`loaded, this`assemblies, this`events
      decreases universe - Elements(loaded) + {current}, 0
      ensures VisitedFirst(current, newReferenced, logic, i + 1, loaded0, events0)
      ensures Elements(old(loaded)) <= Elements(loaded)
    {
      ghost var before := loaded;
      ghost var eventsBefore := events;
      assert current in before by {
        assert before[|loaded0| - 1] == current;
      }
      Visit(newReferenced[i], logic);
      DfsAllStep(load, logic, universe, before, loaded, newReferenced, i);
      KeptThrough(newReferenced, i, before, loaded);
      ElementsGrow(before, loaded);
      CoveredGrows(load, |loaded0|, before, loaded);
      EventsStep(load, |loaded0|, before, loaded, events0, eventsBefore, events);
    }
  }
}
