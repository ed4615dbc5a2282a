/** Which names outside the governance graph the governance functions depend on, directly or through other functions. */
module Boundary {
  import opened Bytes

  datatype ParsedFunction = ParsedFunction(id: string, name: string, calls: seq<string>, callbackRefs: seq<string>)

  const LOW_SIGNAL := {
    "as_ref", "clone", "contains", "contains_key", "get", "insert", "is_empty", "iter", "len", "map", "new",
    "ok_or_else",
    "push", "to_string", "unwrap", "unwrap_or", "unwrap_or_default"
  }

  /** The parsed functions, with the names that count as low-signal. */
  datatype Source = Source(functions: seq<ParsedFunction>, lowSignal: set<string>)

  function FunctionNames(s: Source): set<string> {
    set f | f in s.functions :: f.name
  }

  function GovernanceNames(ids: set<string>, s: Source): set<string> {
    set f | f in s.functions && f.id in ids :: f.name
  }

  function DirectDependencies(s: Source, f: ParsedFunction): set<string> {
    (set d | d in f.calls && d != f.name && d !in s.lowSignal)
    + (set d | d in f.callbackRefs && d in FunctionNames(s) && d !in s.lowSignal)
  }

  /** Of several functions with one id, the last one is kept. */
  function ById(parsed: seq<ParsedFunction>, id: string): Option<ParsedFunction> {
    if parsed == [] then None
    else if parsed[|parsed| - 1].id == id then Some(parsed[|parsed| - 1])
    else ById(parsed[..|parsed| - 1], id)
  }

  // ---- reachability

  /** A name leads to the direct dependencies of every function of that name. */
  ghost predicate LeadsTo(s: Source, from: string, to: string) {
    exists g :: g in s.functions && g.name == from && to in DirectDependencies(s, g)
  }

  ghost predicate IsPath(s: Source, f: ParsedFunction, path: seq<string>) {
    && path != []
    && path[0] in DirectDependencies(s, f)
    && forall n :: 0 < n < |path| ==> LeadsTo(s, path[n - 1], path[n])
  }

  ghost predicate Reaches(s: Source, f: ParsedFunction, name: string) {
    exists path :: IsPath(s, f, path) && path[|path| - 1] == name
  }

  lemma ReachesDirect(s: Source, f: ParsedFunction, name: string)
    requires name in DirectDependencies(s, f)
    ensures Reaches(s, f, name)
  {
    assert IsPath(s, f, [name]);
  }

  lemma ReachesFurther(s: Source, f: ParsedFunction, name: string, next: string)
    requires Reaches(s, f, name) && LeadsTo(s, name, next)
    ensures Reaches(s, f, next)
  {
    var path :| IsPath(s, f, path) && path[|path| - 1] == name;
    assert IsPath(s, f, path + [next]);
  }

  /** A set that holds the direct dependencies and what each of its names leads to holds everything reachable. */
  lemma {:induction false} ClosedHoldsPath(s: Source, f: ParsedFunction, closed: set<string>, path: seq<string>)
    requires IsPath(s, f, path) && DirectDependencies(s, f) <= closed
    requires forall a, b :: a in closed && LeadsTo(s, a, b) ==> b in closed
    ensures path[|path| - 1] in closed
  {
    if |path| > 1 {
      ClosedHoldsPath(s, f, closed, path[..|path| - 1]);
      assert LeadsTo(s, path[|path| - 2], path[|path| - 1]);
    }
  }

  // ---- the worklist

  /** Every name that any function mentions: a finite bound on what the worklist can see. */
  ghost function Mentioned(s: Source): set<string> {
    (set f, d | f in s.functions && d in f.calls :: d) + (set f, d | f in s.functions && d in f.callbackRefs :: d)
  }

  method ExtendWith(stack: seq<string>, more: set<string>) returns (r: seq<string>)
    ensures forall d :: d in r <==> d in stack || d in more
  {
    r := stack;
    var rest := more;
    while rest != {}
      invariant rest <= more
      invariant forall d :: d in r <==> d in stack || (d in more && d !in rest)
      decreases rest
    {
      var d :| d in rest;
      r := r + [d];
      rest := rest - {d};
    }
  }

  /** Push what `name` leads to. */
  method PushSuccessors(s: Source, name: string, stack: seq<string>) returns (r: seq<string>)
    ensures forall d :: d in r <==> d in stack || LeadsTo(s, name, d)
  {
    var functions := s.functions;
    r := stack;
    for n := 0 to |functions|
      invariant forall d :: d in r <==>
                              d in stack
                              || exists g :: g in functions[..n] && g.name == name && d in DirectDependencies(s, g)
    {
      if functions[n].name == name {
        r := ExtendWith(r, DirectDependencies(s, functions[n]));
      }
      assert functions[..n + 1] == functions[..n] + [functions[n]];
    }
    assert functions[..|functions|] == functions;
  }

  /** Seen and stacked names are reachable; what is directly needed or a seen name leads to is seen or stacked. */
  ghost predicate Progress(s: Source, f: ParsedFunction, seen: set<string>, stack: seq<string>) {
    && (forall d :: d in seen || d in stack ==> d in Mentioned(s) && Reaches(s, f, d))
    && (forall d :: d in DirectDependencies(s, f) ==> d in seen || d in stack)
    && (forall a, b :: a in seen && LeadsTo(s, a, b) ==> b in seen || b in stack)
  }

  lemma Starts(s: Source, f: ParsedFunction, stack: seq<string>)
    requires f in s.functions && forall d :: d in stack <==> d in DirectDependencies(s, f)
    ensures Progress(s, f, {}, stack)
  {
    forall d | d in stack
      ensures d in Mentioned(s) && Reaches(s, f, d)
    {
      ReachesDirect(s, f, d);
    }
  }

  lemma Continues(s: Source, f: ParsedFunction, seen: set<string>, stack: seq<string>, name: string,
                  next: seq<string>)
    requires Progress(s, f, seen, stack + [name])
    requires forall d :: d in next <==> d in stack || LeadsTo(s, name, d)
    ensures Progress(s, f, seen + {name}, next) && name in Mentioned(s)
  {
    assert name in stack + [name];
    forall d | d in next
      ensures d in Mentioned(s) && Reaches(s, f, d)
    {
      if d in stack {
        assert d in stack + [name];
      } else {
        ReachesFurther(s, f, name, d);
        var g :| g in s.functions && g.name == name && d in DirectDependencies(s, g);
      }
    }
  }

  lemma Top(stack: seq<string>)
    requires stack != []
    ensures stack == stack[..|stack| - 1] + [stack[|stack| - 1]]
  {}

  lemma Skips(s: Source, f: ParsedFunction, seen: set<string>, stack: seq<string>, name: string)
    requires Progress(s, f, seen, stack + [name]) && name in seen
    ensures Progress(s, f, seen, stack)
  {}

  lemma Finishes(s: Source, f: ParsedFunction, seen: set<string>)
    requires Progress(s, f, seen, [])
    ensures forall d :: d in seen <==> Reaches(s, f, d)
  {
    forall d | Reaches(s, f, d)
      ensures d in seen
    {
      var path :| IsPath(s, f, path) && path[|path| - 1] == d;
      ClosedHoldsPath(s, f, seen, path);
    }
  }

  /** Everything that `f` reaches, for cyclic call graphs too. */
  method Collect(s: Source, f: ParsedFunction) returns (seen: set<string>)
    requires f in s.functions
    ensures forall d :: d in seen <==> Reaches(s, f, d)
  {
    seen := {};
    var stack := ExtendWith([], DirectDependencies(s, f));
    Starts(s, f, stack);
    while stack != []
      invariant Progress(s, f, seen, stack)
      decreases Mentioned(s) - seen, |stack|
    {
      var dependency, below := stack[|stack| - 1], stack[..|stack| - 1];
      Top(stack);
      stack := below;
      if dependency in seen {
        Skips(s, f, seen, below, dependency);
        continue;
      }
      stack := PushSuccessors(s, dependency, below);
      Continues(s, f, seen, below, dependency, stack);
      seen := seen + {dependency};
    }
    Finishes(s, f, seen);
  }

  lemma {:induction false} ByIdFound(parsed: seq<ParsedFunction>, id: string)
    ensures ById(parsed, id).Some? <==> exists g :: g in parsed && g.id == id
    ensures ById(parsed, id).Some? ==> ById(parsed, id).value in parsed && ById(parsed, id).value.id == id
  {
    if parsed != [] {
      ByIdFound(parsed[..|parsed| - 1], id);
      assert parsed == parsed[..|parsed| - 1] + [parsed[|parsed| - 1]];
    }
  }

  /** A governance node depends on a name that no governance function has. */
  ghost predicate Ungoverned(ids: set<string>, s: Source, id: string, name: string) {
    && id in ids && ById(s.functions, id).Some?
    && Reaches(s, ById(s.functions, id).value, name)
    && name !in GovernanceNames(ids, s)
  }

  datatype Assessment = Assessment(affectedNodes: nat, externalCount: nat, dependencies: set<(string, string)>)

  method Assess(ids: set<string>, s: Source) returns (r: Assessment)
    ensures forall id, name :: (id, name) in r.dependencies <==> Ungoverned(ids, s, id, name)
    ensures r.externalCount == |r.dependencies|
    ensures r.affectedNodes == |set p | p in r.dependencies :: p.0|
  {
    var governed := GovernanceNames(ids, s);
    var dependencies: set<(string, string)> := {};
    var rest := ids;
    while rest != {}
      invariant rest <= ids
      invariant forall id, name :: (id, name) in dependencies <==> id !in rest && Ungoverned(ids, s, id, name)
      decreases rest
    {
      var id :| id in rest;
      rest := rest - {id};
      var f := ById(s.functions, id);
      if f.None? {
        continue;
      }
      ByIdFound(s.functions, id);
      var seen := Collect(s, f.value);
      var found := set d | d in seen && d !in governed :: (id, d);
      dependencies := dependencies + found;
    }
    r := Assessment(|set p | p in dependencies :: p.0|, |dependencies|, dependencies);
  }

  /** The assessment with the repository's list of low-signal names. */
  method AssessBoundaryCausalSafety(ids: set<string>, parsed: seq<ParsedFunction>) returns (r: Assessment)
    ensures forall id, name :: (id, name) in r.dependencies <==> Ungoverned(ids, Source(parsed, LOW_SIGNAL), id, name)
    ensures r.externalCount == |r.dependencies|
    ensures r.affectedNodes == |set p | p in r.dependencies :: p.0|
  {
    r := Assess(ids, Source(parsed, LOW_SIGNAL));
  }
}
